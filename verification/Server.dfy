/** The process around the service: the job queue, the packet counter and the thread loops. */
module Server {
  import opened Bytes
  import opened ChatSpec
  import opened ChatTables
  import opened ChatProofs
  import P = JobPipeline
  import opened Wire
  import opened CharPool
  import R = Reassembler
  import B = BusinessService
  import J = Jobs

  class Server {
    const businessService: B.BusinessService
    var jobQueue: seq<JobData>
    var packetCnt: int

    constructor (service: B.BusinessService)
      ensures businessService == service && jobQueue == [] && packetCnt == 0
    {
      businessService, jobQueue, packetCnt := service, [], 0;
    }

    /** The end of a completion: its packets are counted and appended as one block. */
    method EnqueuePackets(packets: seq<JobData>)
      modifies this
      ensures jobQueue == old(jobQueue) + packets
      ensures packetCnt == P.Wrap32(old(packetCnt) + |packets|)
    {
      packetCnt := P.Wrap32(packetCnt + |packets|);
      var packetQueue := packets;
      while packetQueue != []
        invariant jobQueue + packetQueue == old(jobQueue) + packets && packetCnt == P.Wrap32(old(packetCnt) + |packets|)
        decreases |packetQueue|
      {
        var jobData := packetQueue[0];
        packetQueue := packetQueue[1..];
        jobQueue := jobQueue + [jobData];
      }
      assert jobQueue + [] == jobQueue;
    }

    /** atomic exchange(0) */
    method ExchangeCount() returns (cnt: int)
      modifies this`packetCnt
      ensures cnt == old(packetCnt) && packetCnt == 0
    {
      cnt, packetCnt := packetCnt, 0;
    }

    /** One job of a batch. */
    method WorkOne(jobData: JobData, answers: Env) returns (ghost event: Event)
      requires businessService.Valid() && Inv(businessService.Abs())
      requires NamesFit(jobData) && !EndsProcess(businessService.Abs(), jobData, answers.friendNick)
      modifies this`packetCnt, businessService, businessService.roomMap.Values
      ensures businessService.Valid() && fresh(businessService.roomMap.Values - old(businessService.roomMap.Values))
      ensures event.Work? && event.job == jobData && Enabled(old(businessService.Abs()), event)
      ensures businessService.Abs() == Step(old(businessService.Abs()), event)
      ensures packetCnt == if jobData.direction == J.CALLCOUNT && jobData.socket in old(businessService.Abs()).live
                           then 0 else old(packetCnt)
      ensures jobData.direction == J.CALLCOUNT && jobData.socket in old(businessService.Abs()).live ==>
                && event.env.count == old(packetCnt)
                && businessService.sendQueue == old(businessService.sendQueue)
                   + [SendMe(Counts(old(packetCnt), |old(businessService.userMap)|), jobData.socket, INIT)]
    {
      var env := answers;
      var dead := businessService.IsSocketDead(jobData.socket);
      if !dead && jobData.direction == J.CALLCOUNT {
        var cnt := ExchangeCount();
        env := env.(count := cnt);
      }
      var target := businessService.WorkJob(jobData, env);
      event := Work(jobData, env.(target := target));
    }

    /** One job of a batch, unless it makes the process exit. */
    method WorkUnlessExit(jobData: JobData, answers: Env) returns (exited: bool, ghost event: Event)
      requires businessService.Valid() && Inv(businessService.Abs()) && NamesFit(jobData)
      modifies this`packetCnt, businessService, businessService.roomMap.Values
      ensures businessService.Valid() && fresh(businessService.roomMap.Values - old(businessService.roomMap.Values))
      ensures exited ==> businessService.Abs() == old(businessService.Abs())
      ensures exited <==> EndsProcess(old(businessService.Abs()), jobData, answers.friendNick)
      ensures !exited ==> event.Work? && event.job == jobData && Enabled(old(businessService.Abs()), event)
      ensures !exited ==> businessService.Abs() == Step(old(businessService.Abs()), event)
    {
      exited := businessService.MustExit(jobData, answers.friendNick);
      if exited {
        event := SenderSwaps;
      } else {
        event := WorkOne(jobData, answers);
      }
    }

    /** A worker's round: it swaps the whole queue out and handles the jobs front to back, up
        to one that makes the process exit. `answers` stand for what database and file transfer
        reply to each of them. */
    method WorkRound(answers: seq<Env>) returns (exited: bool, ghost events: seq<Event>)
      requires jobQueue != [] && |answers| == |jobQueue|
      requires businessService.Valid() && Inv(businessService.Abs())
      requires forall job <- jobQueue :: NamesFit(job)
      modifies this, businessService, businessService.roomMap.Values
      ensures businessService.Valid() && jobQueue == [] && Inv(businessService.Abs())
      ensures |events| <= |old(jobQueue)|
      ensures Handles(old(businessService.Abs()), old(jobQueue)[..|events|], events, businessService.Abs())
      ensures if exited then
                && |events| < |old(jobQueue)|
                && EndsProcess(businessService.Abs(), old(jobQueue)[|events|], answers[|events|].friendNick)
              else
                |events| == |old(jobQueue)|
    {
      ghost var start := businessService.Abs();
      var localQueue := jobQueue;
      jobQueue, events, exited := [], [], false;
      var i := 0;
      while i < |localQueue|
        invariant 0 <= i <= |localQueue| == |answers| && jobQueue == [] && |events| == i
        invariant businessService.Valid() && fresh(businessService.roomMap.Values - old(businessService.roomMap.Values))
        invariant Inv(businessService.Abs()) && Handles(start, localQueue[..i], events, businessService.Abs())
      {
        assert localQueue[..i + 1] == localQueue[..i] + [localQueue[i]];
        ghost var before := businessService.Abs();
        ghost var event;
        exited, event := WorkUnlessExit(localQueue[i], answers[i]);
        if exited {
          return;
        }
        HandlesOneMore(start, localQueue[..i], events, before, event);
        events := events + [event];
        i := i + 1;
      }
    }

    /** A receiver's round: the completion of `n` bytes on `sock` is cut into packets, which are
        counted and appended to the queue as one block. */
    method RecvRound(io: R.PerIoData, pool: Pool, sock: nat, n: int, ghost limit: int)
      returns (ghost frames: seq<seq<Byte>>)
      requires this as object !in pool.Repr
      requires var m := if n < BUF_SIZE then n else BUF_SIZE;
               R.CanRead(io, pool, m, limit) && WellFramed(R.Coming(io, pool, m, limit), limit)
      modifies this, io, io.buffer, pool, pool.Repr
      ensures R.Ready(io, pool, limit)
      ensures var m := if n < BUF_SIZE then n else BUF_SIZE;
              && Parsed(frames, io.Pending()) == Parse(old(R.Coming(io, pool, m, limit)))
              && (Parsed(frames, io.Pending()) == Parse(old(R.Todo(io, m)))
                  <==> old(Resumes(io.Pending(), io.buffer[..m])))
      ensures old(jobQueue) <= jobQueue && R.JobsOf(jobQueue[|old(jobQueue)|..], frames, sock)
      ensures packetCnt == P.Wrap32(old(packetCnt) + |frames|)
    {
      var remainByte := if n < BUF_SIZE then n else BUF_SIZE;
      var packetQueue, recvMore;
      packetQueue, recvMore, frames := R.Receive(io, pool, sock, remainByte, limit);
      EnqueuePackets(packetQueue);
      assert jobQueue[|old(jobQueue)|..] == packetQueue;
    }
  }
}
