/** Debounced image rollouts (services/hangar/events.go): the content of the pending map and of the
    batches run from it. */
module Rollouts {
  import opened Wrappers

  /** An image-ready event, its image already resolved; `serial` tells requests for one image apart. */
  datatype Request = Request(image: string, serial: nat)

  datatype JobMatch = JobMatch(job: string, path: string)

  datatype PendingRollout = PendingRollout(job: string, path: string, request: Request)

  type PendingMap = map<string, PendingRollout>

  /** Which jobs reference an image. Fixed while requests are queued. */
  type Matcher = string -> seq<JobMatch>

  predicate Uses(jobsOf: Matcher, job: string, image: string) {
    exists i :: 0 <= i < |jobsOf(image)| && jobsOf(image)[i].job == job
  }

  datatype Outcome = BadRequest | NotFound | Accepted(jobs: seq<string>)

  // ----- What the map holds, as a function of the accepted requests -----

  /** The newest accepted request that touches job, as an index; -1 if none does. */
  ghost function LastFor(jobsOf: Matcher, accepted: seq<Request>, job: string): int {
    if accepted == [] then -1
    else if Uses(jobsOf, job, accepted[|accepted| - 1].image) then |accepted| - 1
    else LastFor(jobsOf, accepted[..|accepted| - 1], job)
  }

  ghost predicate Represents(jobsOf: Matcher, pending: PendingMap, accepted: seq<Request>) {
    forall job ::
      var k := LastFor(jobsOf, accepted, job);
      && (job in pending <==> k >= 0)
      && (job in pending ==> 0 <= k < |accepted| && pending[job].request == accepted[k] && pending[job].job == job)
  }

  lemma {:induction false} LastForLaws(jobsOf: Matcher, accepted: seq<Request>, job: string)
    ensures var k := LastFor(jobsOf, accepted, job);
            && -1 <= k < |accepted|
            && (k >= 0 ==> Uses(jobsOf, job, accepted[k].image))
            && forall i :: k < i < |accepted| ==> !Uses(jobsOf, job, accepted[i].image)
  {
    if accepted != [] {
      LastForLaws(jobsOf, accepted[..|accepted| - 1], job);
    }
  }

  class Queue {
    const jobsOf: Matcher
    const isHangar: Request -> bool
    var pending: PendingMap
    ghost var accepted: seq<Request>     // accepted since the last drain, oldest first

    constructor (jobsOf: Matcher, isHangar: Request -> bool)
      ensures Valid() && accepted == []
      ensures this.jobsOf == jobsOf && this.isHangar == isHangar
    {
      this.jobsOf, this.isHangar := jobsOf, isHangar;
      pending, accepted := map[], [];
    }

    ghost predicate Valid()
      reads this
    {
      Represents(jobsOf, pending, accepted)
    }

    /** Records every matching job under the request, replacing what the job was queued for. */
    method Enqueue(req: Request) returns (outcome: Outcome)
      requires Valid()
      modifies this
      ensures Valid()
      ensures accepted == if outcome.Accepted? then old(accepted) + [req] else old(accepted)
      ensures outcome.BadRequest? <==> req.image == ""
      ensures outcome.NotFound? <==> req.image != "" && jobsOf(req.image) == []
      ensures outcome.Accepted? ==> |outcome.jobs| == |jobsOf(req.image)|
                                    && forall i :: 0 <= i < |outcome.jobs| ==>
                                      outcome.jobs[i] == jobsOf(req.image)[i].job
    {
      if req.image == "" {
        return BadRequest;
      }
      var matches := jobsOf(req.image);
      if |matches| == 0 {
        return NotFound;
      }
      var jobs: seq<string> := [];
      for n := 0 to |matches|
        invariant |jobs| == n && forall i :: 0 <= i < n ==> jobs[i] == matches[i].job
        invariant accepted == old(accepted)
        invariant forall i :: 0 <= i < n ==> matches[i].job in pending
        invariant forall job :: job in pending ==>
          (pending[job].request == req && pending[job].job == job && Uses(jobsOf, job, req.image))
          || (job in old(pending) && pending[job] == old(pending)[job] && forall i :: 0 <= i < n ==>
            matches[i].job != job)
        invariant forall job :: job in old(pending) ==> job in pending
      {
        var m := matches[n];
        pending := pending[m.job := PendingRollout(m.job, m.path, req)];
        jobs := jobs + [m.job];
      }
      accepted := accepted + [req];
      EnqueuedRepresents(jobsOf, old(pending), pending, old(accepted), req);
      return Accepted(jobs);
    }

    /** Drains the map and runs its batch; `executed` is what was run, in order. The context ends after
        `patience` requests. */
    method ExecutePending(patience: nat) returns (executed: seq<Request>, cancelled: bool)
      requires Valid()
      modifies this
      ensures Valid() && pending == map[] && accepted == []
      ensures exists order :: InBatchOrder(jobsOf, isHangar, old(accepted), order)
                              && cancelled == (patience < |order|)
                              && executed == if cancelled then order[..patience] else order
    {
      executed, cancelled := [], false;
      ghost var was := accepted;
      var drained := pending;
      pending, accepted := map[], [];
      var unique := DeduplicateByImage(drained, jobsOf, was);
      var order := HangarLast(unique, isHangar, jobsOf, was);
      assert InBatchOrder(jobsOf, isHangar, was, order);
      for n := 0 to |order|
        invariant executed == order[..n] && n <= patience && !cancelled
        invariant pending == map[] && accepted == []
      {
        if n == patience {
          cancelled := true;
          return;
        }
        executed := executed + [order[n]];
      }
      assert order[..|order|] == order;
    }
  }

  lemma EnqueuedRepresents(jobsOf: Matcher, before: PendingMap, after: PendingMap, accepted: seq<Request>, req: Request)
    requires Represents(jobsOf, before, accepted)
    requires forall i :: 0 <= i < |jobsOf(req.image)| ==> jobsOf(req.image)[i].job in after
    requires forall job :: job in after ==>
      (after[job].request == req && after[job].job == job && Uses(jobsOf, job, req.image))
      || (job in before && after[job] == before[job]
          && forall i :: 0 <= i < |jobsOf(req.image)| ==> jobsOf(req.image)[i].job != job)
    requires forall job :: job in before ==> job in after
    ensures Represents(jobsOf, after, accepted + [req])
  {
    var all := accepted + [req];
    assert all[..|all| - 1] == accepted;
    forall job
      ensures var k := LastFor(jobsOf, all, job);
              && (job in after <==> k >= 0)
              && (job in after ==> 0 <= k < |all| && after[job].request == all[k] && after[job].job == job)
    {
      LastForLaws(jobsOf, accepted, job);
      assert (job in before <==> LastFor(jobsOf, accepted, job) >= 0);
    }
  }

  // ----- The newest request per image -----

  /** The newest accepted request for an image, as an index; -1 if there is none. */
  ghost function NewestOf(accepted: seq<Request>, image: string): int {
    if accepted == [] then -1
    else if accepted[|accepted| - 1].image == image then |accepted| - 1
    else NewestOf(accepted[..|accepted| - 1], image)
  }

  lemma {:induction false} NewestOfLaws(accepted: seq<Request>, image: string)
    ensures var k := NewestOf(accepted, image);
            && -1 <= k < |accepted|
            && (k >= 0 ==> accepted[k].image == image)
            && forall i :: k < i < |accepted| ==> accepted[i].image != image
  {
    if accepted != [] {
      NewestOfLaws(accepted[..|accepted| - 1], image);
    }
  }

  /** An entry always holds the newest request for its image: a newer one would have replaced it too. */
  lemma EntryIsNewest(jobsOf: Matcher, pending: PendingMap, accepted: seq<Request>, job: string)
    requires Represents(jobsOf, pending, accepted) && job in pending
    ensures var k := NewestOf(accepted, pending[job].request.image);
            k >= 0 && k == LastFor(jobsOf, accepted, job) && pending[job].request == accepted[k]
  {
    LastForLaws(jobsOf, accepted, job);
    NewestOfLaws(accepted, pending[job].request.image);
  }

  ghost predicate Queued(jobsOf: Matcher, accepted: seq<Request>, image: string) {
    exists job :: LastFor(jobsOf, accepted, job) >= 0 && LastFor(jobsOf, accepted, job) < |accepted|
                  && accepted[LastFor(jobsOf, accepted, job)].image == image
  }

  /** The requests of a batch: for each queued image its newest request, and nothing else. */
  ghost predicate IsBatch(jobsOf: Matcher, accepted: seq<Request>, unique: map<string, Request>) {
    && (forall image :: image in unique <==> Queued(jobsOf, accepted, image))
    && (forall image :: image in unique ==>
          0 <= NewestOf(accepted, image) < |accepted| && unique[image] == accepted[NewestOf(accepted, image)])
  }

  /** Ranges over the map in any order; the result does not depend on it. */
  method DeduplicateByImage(pending: PendingMap, ghost jobsOf: Matcher, ghost accepted: seq<Request>)
    returns (unique: map<string, Request>)
    requires Represents(jobsOf, pending, accepted)
    ensures IsBatch(jobsOf, accepted, unique)
  {
    unique := map[];
    var rest := pending.Keys;
    while rest != {}
      invariant rest <= pending.Keys
      invariant forall job :: job in pending && job !in rest ==> pending[job].request.image in unique
      invariant forall image :: image in unique ==>
        && Queued(jobsOf, accepted, image)
        && 0 <= NewestOf(accepted, image) < |accepted| && unique[image] == accepted[NewestOf(accepted, image)]
      decreases |rest|
    {
      EmptyOrNot(rest);
      var job :| job in rest;
      EntryIsNewest(jobsOf, pending, accepted, job);
      LastForLaws(jobsOf, accepted, job);
      NewestOfLaws(accepted, pending[job].request.image);
      unique := unique[pending[job].request.image := pending[job].request];
      rest := rest - {job};
    }
    forall image | Queued(jobsOf, accepted, image)
      ensures image in unique
    {
      var job :| LastFor(jobsOf, accepted, job) >= 0 && LastFor(jobsOf, accepted, job) < |accepted|
                 && accepted[LastFor(jobsOf, accepted, job)].image == image;
      assert job in pending;
    }
  }

  /** The order a batch is run in: each queued image once, by its newest request, hangar's own last. */
  ghost predicate InBatchOrder(
    jobsOf: Matcher, isHangar: Request -> bool, accepted: seq<Request>, order: seq<Request>) {
    && (forall i, j :: 0 <= i < j < |order| ==> order[i].image != order[j].image)
    && (forall i :: 0 <= i < |order| ==> IsNewestQueued(jobsOf, accepted, order[i]))
    && (forall image :: Queued(jobsOf, accepted, image) ==> exists i :: 0 <= i < |order| && order[i].image == image)
    && (forall i, j :: 0 <= i < j < |order| && isHangar(order[i]) ==> isHangar(order[j]))
  }

  ghost predicate IsNewestQueued(jobsOf: Matcher, accepted: seq<Request>, req: Request) {
    && Queued(jobsOf, accepted, req.image)
    && 0 <= NewestOf(accepted, req.image) < |accepted| && req == accepted[NewestOf(accepted, req.image)]
  }

  ghost predicate Listed(
    unique: map<string, Request>, done: set<string>, list: seq<Request>, isHangar: Request -> bool, hangar: bool) {
    && (forall i :: 0 <= i < |list| ==> list[i].image in done && list[i].image in unique
                                        && unique[list[i].image] == list[i] && isHangar(list[i]) == hangar)
    && (forall i, j :: 0 <= i < j < |list| ==> list[i].image != list[j].image)
    && (forall image :: image in done && image in unique && isHangar(unique[image]) == hangar ==> unique[image] in list)
  }

  lemma ListedStep(
    unique: map<string, Request>, done: set<string>, list: seq<Request>, isHangar: Request -> bool, hangar: bool,
    image: string)
    requires Listed(unique, done, list, isHangar, hangar)
    requires image in unique && image !in done && unique[image].image == image
    ensures isHangar(unique[image]) == hangar ==>
      Listed(unique, done + {image}, list + [unique[image]], isHangar, hangar)
    ensures isHangar(unique[image]) != hangar ==> Listed(unique, done + {image}, list, isHangar, hangar)
  {
  }

  /** Splits the batch into other requests and hangar's own, again in any order of the map. */
  method SplitByHangar(unique: map<string, Request>, isHangar: Request -> bool)
    returns (others: seq<Request>, hangar: seq<Request>)
    requires forall image :: image in unique ==> unique[image].image == image
    ensures Listed(unique, unique.Keys, others, isHangar, false)
    ensures Listed(unique, unique.Keys, hangar, isHangar, true)
  {
    others, hangar := [], [];
    var rest := unique.Keys;
    ghost var done: set<string> := {};
    while rest != {}
      invariant done + rest == unique.Keys && done !! rest
      invariant Listed(unique, done, others, isHangar, false)
      invariant Listed(unique, done, hangar, isHangar, true)
      decreases |rest|
    {
      EmptyOrNot(rest);
      var image :| image in rest;
      ListedStep(unique, done, others, isHangar, false, image);
      ListedStep(unique, done, hangar, isHangar, true, image);
      rest := rest - {image};
      done := done + {image};
      if isHangar(unique[image]) {
        hangar := hangar + [unique[image]];
      } else {
        others := others + [unique[image]];
      }
    }
    assert done == unique.Keys;
  }

  method HangarLast(
    unique: map<string, Request>, isHangar: Request -> bool, ghost jobsOf: Matcher, ghost accepted: seq<Request>)
    returns (order: seq<Request>)
    requires IsBatch(jobsOf, accepted, unique)
    ensures InBatchOrder(jobsOf, isHangar, accepted, order)
  {
    forall image | image in unique
      ensures unique[image].image == image
    {
      NewestOfLaws(accepted, image);
    }
    var others, hangar := SplitByHangar(unique, isHangar);
    order := others + hangar;
    JoinedOrder(jobsOf, isHangar, accepted, unique, others, hangar);
  }

  lemma JoinedOrder(
    jobsOf: Matcher, isHangar: Request -> bool, accepted: seq<Request>, unique: map<string, Request>,
    others: seq<Request>, hangar: seq<Request>)
    requires IsBatch(jobsOf, accepted, unique) && forall image :: image in unique ==> unique[image].image == image
    requires Listed(unique, unique.Keys, others, isHangar, false)
    requires Listed(unique, unique.Keys, hangar, isHangar, true)
    ensures InBatchOrder(jobsOf, isHangar, accepted, others + hangar)
  {
    var order := others + hangar;
    forall i | 0 <= i < |order|
      ensures IsNewestQueued(jobsOf, accepted, order[i])
      ensures order[i].image in unique && unique[order[i].image] == order[i]
    {
    }
    forall i, j | 0 <= i < j < |order|
      ensures order[i].image != order[j].image
    {
      if i < |others| <= j {
        assert !isHangar(order[i]) && isHangar(order[j]);
      }
    }
    forall image | Queued(jobsOf, accepted, image)
      ensures exists i :: 0 <= i < |order| && order[i].image == image
    {
      var req := unique[image];
      assert req in others || req in hangar;
      assert req in order;
    }
  }

  // ----- Which requests make it into the batch -----

  /** An accepted image is run by the batch exactly when one of its jobs was not claimed by a later
      request: requests displace each other job by job. */
  lemma {:induction false} RunIffNotDisplaced(jobsOf: Matcher, accepted: seq<Request>, image: string)
    requires NewestOf(accepted, image) >= 0
    ensures Queued(jobsOf, accepted, image) <==>
            exists job :: Uses(jobsOf, job, image) &&
                          forall i :: NewestOf(accepted, image) < i < |accepted| ==>
                            !Uses(jobsOf, job, accepted[i].image)
  {
    var k := NewestOf(accepted, image);
    NewestOfLaws(accepted, image);
    if Queued(jobsOf, accepted, image) {
      var job :| LastFor(jobsOf, accepted, job) >= 0 && LastFor(jobsOf, accepted, job) < |accepted|
                 && accepted[LastFor(jobsOf, accepted, job)].image == image;
      LastForLaws(jobsOf, accepted, job);
      assert Uses(jobsOf, job, image);
    }
    if job :| Uses(jobsOf, job, image) && forall i :: k < i < |accepted| ==> !Uses(jobsOf, job, accepted[i].image) {
      LastForLaws(jobsOf, accepted, job);
      assert LastFor(jobsOf, accepted, job) == k;
    }
  }

  /** Whatever was displaced, every job that any accepted request touched is rolled out by some
      request of the batch that uses it. */
  lemma EveryJobIsCovered(jobsOf: Matcher, accepted: seq<Request>, k: nat, job: string)
    requires k < |accepted| && Uses(jobsOf, job, accepted[k].image)
    ensures exists image :: Queued(jobsOf, accepted, image) && Uses(jobsOf, job, image)
  {
    LastForLaws(jobsOf, accepted, job);
    var image := accepted[LastFor(jobsOf, accepted, job)].image;
    assert Queued(jobsOf, accepted, image) && Uses(jobsOf, job, image);
  }

  /** Two images of one job: the first accepted request never runs. */
  lemma DisplacedExample()
    ensures var jobsOf: Matcher := (image: string) => [JobMatch("web", "web.nomad")];
            var accepted := [Request("app", 0), Request("sidecar", 1)];
            NewestOf(accepted, "app") == 0 && !Queued(jobsOf, accepted, "app")
  {
    var jobsOf: Matcher := (image: string) => [JobMatch("web", "web.nomad")];
    var accepted := [Request("app", 0), Request("sidecar", 1)];
    assert accepted[..1] == [Request("app", 0)];
    NewestOfLaws(accepted, "app");
    forall job
      ensures Uses(jobsOf, job, "app") ==> Uses(jobsOf, job, accepted[1].image)
    {
      assert jobsOf("app") == jobsOf("sidecar");
    }
    RunIffNotDisplaced(jobsOf, accepted, "app");
  }
}
