/**
 What ListByTags guarantees: which pages it requests and with which marker,
 which names each tag lookup carries, which load balancers it returns and in
 what order, and what it returns on each kind of failure.

 The loop (ListFrom) runs over the steps of the page calls, so most of what
 follows holds for any sequence of steps; the last part ties the steps back
 to the provider's pages.
 */
module DiscoveryProperties {
  import opened Wrappers
  import opened ElbApi
  import opened ElbTags
  import opened ElbUtil
  import opened Discovery

  // ---------------------------------------------------------------------------
  // Where the loop stops

  /** After the `call`-th page request the loop goes on to the next page. */
  predicate Continues(steps: seq<PageStep>, call: nat)
  {
    var s := StepIn(steps, call);
    s.PageEmpty? || (s.Processed? && s.outcome.err.None? && !EndOfPages(s.nextMarker))
  }

  /** The first page call at or after `call` after which the loop does not go on. */
  function StopCall(steps: seq<PageStep>, call: nat): (stop: nat)
    ensures call <= stop
    ensures !Continues(steps, stop)
    decreases |steps| - call
  {
    if Continues(steps, call) then StopCall(steps, call + 1) else call
  }

  /** Every page call before the one the loop stops after lets it go on. */
  lemma {:induction false} ContinuesUntilStop(steps: seq<PageStep>, call: nat)
    ensures forall k :: call <= k < StopCall(steps, call) ==> Continues(steps, k)
    decreases |steps| - call
  {
    if Continues(steps, call) {
      ContinuesUntilStop(steps, call + 1);
    }
  }

  /** The last page call ListByTags makes. */
  function LastCall(filter: map<string, string>, env: Provider): nat
    requires TagsBelongToPages(filter, env)
  {
    StopCall(Steps(filter, env), 0)
  }

  /** The load balancers one page call contributes. */
  function Found(steps: seq<PageStep>, call: nat): seq<LoadBalancer>
  {
    var s := StepIn(steps, call);
    if s.Processed? then s.outcome.found else []
  }

  /** The contributions of the first `n` page calls, concatenated in call order. */
  function Gathered(steps: seq<PageStep>, n: nat): seq<LoadBalancer>
  {
    if n == 0 then [] else Gathered(steps, n - 1) + Found(steps, n - 1)
  }

  /** The failure, if any, of one page call. */
  function ErrorAt(steps: seq<PageStep>, call: nat): Option<ApiError>
  {
    match StepIn(steps, call)
    case PageFailed(e) => Some(e)
    case PageEmpty => None
    case TagsFailed(_, e) => Some(e)
    case Processed(_, _, _, outcome, _) => outcome.err
  }

  /** The requests one page call adds to the log. */
  function StepRequests(steps: seq<PageStep>, call: nat, marker: Option<string>): seq<Request>
  {
    var s := StepIn(steps, call);
    [DescribeLoadBalancersRequest(call, marker, PageSize)]
      + (if s.TagsFailed? || s.Processed? then [DescribeTagsRequest(s.names)] else [])
      + (if s.Processed? then s.outcome.requests else [])
  }

  /** The marker the loop carries into the next page call. */
  function NextMarker(steps: seq<PageStep>, call: nat, marker: Option<string>): Option<string>
  {
    var s := StepIn(steps, call);
    if s.Processed? then s.nextMarker else marker
  }

  // ---------------------------------------------------------------------------
  // The loop, one page call at a time

  /** A page call after which the loop goes on. */
  lemma ListFromContinues(steps: seq<PageStep>, call: nat, marker: Option<string>,
                          acc: seq<LoadBalancer>, tr: seq<Request>)
    requires Continues(steps, call)
    ensures call < |steps|
    ensures StopCall(steps, call) == StopCall(steps, call + 1)
    ensures ListFrom(steps, call, marker, acc, tr)
         == ListFrom(steps, call + 1, NextMarker(steps, call, marker),
                     acc + Found(steps, call), tr + StepRequests(steps, call, marker))
  {
    var s := StepIn(steps, call);
    if s.PageEmpty? {
      assert acc + [] == acc;
      assert StepRequests(steps, call, marker) == [DescribeLoadBalancersRequest(call, marker, PageSize)];
    } else {
      assert tr + StepRequests(steps, call, marker)
          == tr + [DescribeLoadBalancersRequest(call, marker, PageSize)] + [DescribeTagsRequest(s.names)] + s.outcome.requests;
    }
  }

  /** The page call at which the loop stops. */
  lemma ListFromStops(steps: seq<PageStep>, call: nat, marker: Option<string>,
                      acc: seq<LoadBalancer>, tr: seq<Request>)
    requires !Continues(steps, call)
    ensures StopCall(steps, call) == call
    ensures var r := ListFrom(steps, call, marker, acc, tr);
            && r.lbs == (if StepIn(steps, call).PageFailed? then [] else acc + Found(steps, call))
            && r.err == ErrorAt(steps, call)
            && r.requests == tr + StepRequests(steps, call, marker)
  {
    var s := StepIn(steps, call);
    if s.TagsFailed? {
      assert acc + [] == acc;
    } else if s.Processed? {
      assert tr + StepRequests(steps, call, marker)
          == tr + [DescribeLoadBalancersRequest(call, marker, PageSize)] + [DescribeTagsRequest(s.names)] + s.outcome.requests;
    }
  }

  /** The loop ends with the failure, if any, of the page call it stops after. */
  lemma {:induction false} ListFromError(steps: seq<PageStep>, call: nat, marker: Option<string>,
                                         acc: seq<LoadBalancer>, tr: seq<Request>)
    ensures ListFrom(steps, call, marker, acc, tr).err == ErrorAt(steps, StopCall(steps, call))
    decreases |steps| - call
  {
    if Continues(steps, call) {
      ListFromContinues(steps, call, marker, acc, tr);
      ListFromError(steps, call + 1, NextMarker(steps, call, marker),
                    acc + Found(steps, call), tr + StepRequests(steps, call, marker));
    } else {
      ListFromStops(steps, call, marker, acc, tr);
    }
  }

  /**
   Started with what the earlier page calls contributed, the loop returns what
   all page calls up to the last one contributed, unless the last page
   request failed.
   */
  lemma {:induction false} ListFromGathers(steps: seq<PageStep>, call: nat, marker: Option<string>, tr: seq<Request>)
    ensures ListFrom(steps, call, marker, Gathered(steps, call), tr).lbs
              == (if StepIn(steps, StopCall(steps, call)).PageFailed? then [] else Gathered(steps, StopCall(steps, call) + 1))
    decreases |steps| - call
  {
    if Continues(steps, call) {
      var next, tr' := NextMarker(steps, call, marker), tr + StepRequests(steps, call, marker);
      ListFromContinues(steps, call, marker, Gathered(steps, call), tr);
      GatheredNext(steps, call);
      ListFromGathers(steps, call + 1, next, tr');
    } else {
      ListFromStops(steps, call, marker, Gathered(steps, call), tr);
      GatheredNext(steps, call);
    }
  }

  /** One more call's contribution extends what was gathered. */
  lemma GatheredNext(steps: seq<PageStep>, n: nat)
    ensures Gathered(steps, n + 1) == Gathered(steps, n) + Found(steps, n)
  {
  }

  // ---------------------------------------------------------------------------
  // The request log

  /**
   The marker the `call`-th page request carries: an empty page leaves it as it was.
   Read off the steps, so the loop lemmas stay generic over them;
   PageMarkerBefore reads the same off the provider's pages, and
   MarkersFollowPages shows the two agree.
   */
  function MarkerBefore(steps: seq<PageStep>, call: nat): Option<string>
  {
    if call == 0 then None
    else
      var s := StepIn(steps, call - 1);
      if s.Processed? then s.nextMarker else MarkerBefore(steps, call - 1)
  }

  /** The names the tag lookup of the `call`-th page call carries, when it makes one (read off the steps; PageNamesAt is the same read off the pages, and NamesFollowPages ties them). */
  function NamesLookedUp(steps: seq<PageStep>, call: nat): Option<seq<string>>
  {
    var s := StepIn(steps, call);
    if s.TagsFailed? || s.Processed? then Some(s.names) else None
  }

  /** The script positions of the page requests in a log, in log order. */
  function PageCalls(rq: seq<Request>): seq<nat>
  {
    if |rq| == 0 then []
    else PageCalls(rq[..|rq| - 1]) + (if rq[|rq| - 1].DescribeLoadBalancersRequest? then [rq[|rq| - 1].call] else [])
  }

  /** Every page request asks for PageSize entries from the marker its position calls for. */
  predicate PageRequestsFollowMarkers(steps: seq<PageStep>, rq: seq<Request>)
  {
    forall t :: 0 <= t < |rq| && rq[t].DescribeLoadBalancersRequest? ==>
      rq[t].pageSize == PageSize && rq[t].marker == MarkerBefore(steps, rq[t].call)
  }

  /** Every tag lookup comes right after a page request and carries exactly that call's names. */
  predicate TagLookupsFollowPages(steps: seq<PageStep>, rq: seq<Request>)
  {
    forall t :: 0 <= t < |rq| && rq[t].DescribeTagsRequest? ==>
      0 < t && rq[t - 1].DescribeLoadBalancersRequest? && NamesLookedUp(steps, rq[t - 1].call) == Some(rq[t].names)
  }

  /** The page request of call `k` sits at position t - 1 of the log, and the lookup of that call's names right after it, at t. */
  predicate TagLookupAt(steps: seq<PageStep>, rq: seq<Request>, k: nat, t: int)
  {
    && 0 < t < |rq|
    && rq[t - 1].DescribeLoadBalancersRequest? && rq[t - 1].call == k
    && NamesLookedUp(steps, k).Some?
    && rq[t] == DescribeTagsRequest(NamesLookedUp(steps, k).value)
  }

  /** Every page call before `n` that received names has its tag lookup, right after its page request. */
  ghost predicate PagesLookedUp(steps: seq<PageStep>, rq: seq<Request>, n: nat)
  {
    forall k: nat :: k < n && NamesLookedUp(steps, k).Some? ==> exists t :: TagLookupAt(steps, rq, k, t)
  }

  /** Appending to a log keeps the tag lookups it already holds. */
  lemma PagesLookedUpAppend(steps: seq<PageStep>, rq: seq<Request>, more: seq<Request>, n: nat)
    requires PagesLookedUp(steps, rq, n)
    ensures PagesLookedUp(steps, rq + more, n)
  {
    forall k: nat | k < n && NamesLookedUp(steps, k).Some?
      ensures exists t :: TagLookupAt(steps, rq + more, k, t)
    {
      var t :| TagLookupAt(steps, rq, k, t);
      assert (rq + more)[t - 1] == rq[t - 1] && (rq + more)[t] == rq[t];
      assert TagLookupAt(steps, rq + more, k, t);
    }
  }

  /** The requests of one page call add its tag lookup, if it makes one, right after its page request. */
  lemma StepLooksUp(steps: seq<PageStep>, call: nat, marker: Option<string>, tr: seq<Request>)
    requires PagesLookedUp(steps, tr, call)
    ensures PagesLookedUp(steps, tr + StepRequests(steps, call, marker), call + 1)
  {
    var rq := tr + StepRequests(steps, call, marker);
    PagesLookedUpAppend(steps, tr, StepRequests(steps, call, marker), call);
    if NamesLookedUp(steps, call).Some? {
      var s := StepIn(steps, call);
      assert rq[|tr|] == DescribeLoadBalancersRequest(call, marker, PageSize);
      assert rq[|tr| + 1] == DescribeTagsRequest(s.names);
      assert TagLookupAt(steps, rq, call, |tr| + 1);
    }
  }

  /** The loop makes the tag lookup of every page call up to the last that received names. */
  lemma {:induction false} ListFromLooksUp(steps: seq<PageStep>, call: nat, marker: Option<string>,
                                           acc: seq<LoadBalancer>, tr: seq<Request>)
    requires PagesLookedUp(steps, tr, call)
    ensures PagesLookedUp(steps, ListFrom(steps, call, marker, acc, tr).requests, StopCall(steps, call) + 1)
    decreases |steps| - call
  {
    StepLooksUp(steps, call, marker, tr);
    if Continues(steps, call) {
      ListFromContinues(steps, call, marker, acc, tr);
      ListFromLooksUp(steps, call + 1, NextMarker(steps, call, marker),
                      acc + Found(steps, call), tr + StepRequests(steps, call, marker));
    } else {
      ListFromStops(steps, call, marker, acc, tr);
    }
  }

  /** A log holding the page requests of calls 0 .. n - 1, in that order, with the right markers and tag lookups. */
  predicate LoggedInOrder(steps: seq<PageStep>, rq: seq<Request>, n: nat)
  {
    && |PageCalls(rq)| == n
    && (forall k :: 0 <= k < n ==> PageCalls(rq)[k] == k)
    && PageRequestsFollowMarkers(steps, rq)
    && TagLookupsFollowPages(steps, rq)
  }

  /** A log holding only health and security-group lookups. */
  predicate OnlyLookups(rq: seq<Request>)
  {
    forall q :: q in rq ==> q.DescribeInstanceHealthRequest? || q.DescribeSecurityGroupsRequest?
  }

  /** The matching of a page sends only health and security-group lookups. */
  predicate LookupsOnlyAfterTags(steps: seq<PageStep>)
  {
    forall k :: 0 <= k < |steps| && steps[k].Processed? ==> OnlyLookups(steps[k].outcome.requests)
  }

  /** The page requests of two logs put together are those of each, in order. */
  lemma {:induction false} PageCallsAppend(a: seq<Request>, b: seq<Request>)
    ensures PageCalls(a + b) == PageCalls(a) + PageCalls(b)
    decreases |b|
  {
    if |b| == 0 {
      assert a + b == a;
    } else {
      var b' := b[..|b| - 1];
      assert (a + b)[..|a + b| - 1] == a + b';
      PageCallsAppend(a, b');
    }
  }

  /** A log of health and security-group lookups holds no page request. */
  lemma {:induction false} NoPageCalls(rq: seq<Request>)
    requires OnlyLookups(rq)
    ensures PageCalls(rq) == []
    decreases |rq|
  {
    if |rq| > 0 {
      assert rq[|rq| - 1] in rq;
      assert OnlyLookups(rq[..|rq| - 1]);
      NoPageCalls(rq[..|rq| - 1]);
    }
  }

  /** Appending health and security-group lookups leaves the page requests and tag lookups of a log as they were. */
  lemma AppendLookups(steps: seq<PageStep>, tr: seq<Request>, n: nat, more: seq<Request>)
    requires OnlyLookups(more)
    requires LoggedInOrder(steps, tr, n)
    ensures LoggedInOrder(steps, tr + more, n)
  {
    PageCallsAppend(tr, more);
    NoPageCalls(more);
    assert PageCalls(tr) + [] == PageCalls(tr);
    forall t | |tr| <= t < |tr + more|
      ensures !(tr + more)[t].DescribeLoadBalancersRequest? && !(tr + more)[t].DescribeTagsRequest?
    {
      assert (tr + more)[t] == more[t - |tr|] && more[t - |tr|] in more;
    }
  }

  /** Logging the `call`-th page request with the marker MarkerBefore calls for. */
  lemma AppendPageRequest(steps: seq<PageStep>, tr: seq<Request>, call: nat)
    requires LoggedInOrder(steps, tr, call)
    ensures LoggedInOrder(steps, tr + [DescribeLoadBalancersRequest(call, MarkerBefore(steps, call), PageSize)], call + 1)
  {
    var tr1 := tr + [DescribeLoadBalancersRequest(call, MarkerBefore(steps, call), PageSize)];
    assert tr1[..|tr1| - 1] == tr;
    assert PageCalls(tr1) == PageCalls(tr) + [call];
    forall t | 0 <= t < |tr|
      ensures tr1[t] == tr[t]
    {
    }
  }

  /** Logging the tag lookup of a page call right after its page request. */
  lemma AppendTagLookup(steps: seq<PageStep>, tr: seq<Request>, n: nat, call: nat, names: seq<string>)
    requires LoggedInOrder(steps, tr, n)
    requires |tr| > 0 && tr[|tr| - 1] == DescribeLoadBalancersRequest(call, MarkerBefore(steps, call), PageSize)
    requires NamesLookedUp(steps, call) == Some(names)
    ensures LoggedInOrder(steps, tr + [DescribeTagsRequest(names)], n)
  {
    var tr2 := tr + [DescribeTagsRequest(names)];
    assert tr2[..|tr2| - 1] == tr;
    assert PageCalls(tr2) == PageCalls(tr) + [];
    forall t | 0 <= t < |tr|
      ensures tr2[t] == tr[t]
    {
    }
  }

  /** The requests of one page call keep the log in call order, with the right markers and tag lookups. */
  lemma StepRequestsFollow(steps: seq<PageStep>, call: nat, tr: seq<Request>)
    requires LoggedInOrder(steps, tr, call)
    requires LookupsOnlyAfterTags(steps)
    ensures LoggedInOrder(steps, tr + StepRequests(steps, call, MarkerBefore(steps, call)), call + 1)
  {
    var marker := MarkerBefore(steps, call);
    var s := StepIn(steps, call);
    var tr1 := tr + [DescribeLoadBalancersRequest(call, marker, PageSize)];
    AppendPageRequest(steps, tr, call);
    var tr' := tr + StepRequests(steps, call, marker);
    if s.TagsFailed? || s.Processed? {
      assert call < |steps| && s == steps[call];
      AppendTagLookup(steps, tr1, call + 1, call, s.names);
      var tr2 := tr1 + [DescribeTagsRequest(s.names)];
      if s.Processed? {
        AppendLookups(steps, tr2, call + 1, s.outcome.requests);
        assert tr' == tr2 + s.outcome.requests;
      } else {
        assert tr' == tr2;
      }
    } else {
      assert tr' == tr1;
    }
  }

  /** After a page call the loop goes on from, it carries the marker MarkerBefore calls for. */
  lemma NextMarkerFollows(steps: seq<PageStep>, call: nat)
    requires Continues(steps, call)
    ensures NextMarker(steps, call, MarkerBefore(steps, call)) == MarkerBefore(steps, call + 1)
  {
  }

  /** Started on an ordered log of the earlier calls, the loop logs the page requests and tag lookups of every call up to the stopping one, in order. */
  lemma {:induction false} ListFromRequests(steps: seq<PageStep>, call: nat, acc: seq<LoadBalancer>, tr: seq<Request>)
    requires LookupsOnlyAfterTags(steps)
    requires LoggedInOrder(steps, tr, call)
    ensures LoggedInOrder(steps, ListFrom(steps, call, MarkerBefore(steps, call), acc, tr).requests,
                          StopCall(steps, call) + 1)
    decreases |steps| - call
  {
    var marker := MarkerBefore(steps, call);
    StepRequestsFollow(steps, call, tr);
    if Continues(steps, call) {
      ListFromContinues(steps, call, marker, acc, tr);
      NextMarkerFollows(steps, call);
      ListFromRequests(steps, call + 1, acc + Found(steps, call), tr + StepRequests(steps, call, marker));
    } else {
      ListFromStops(steps, call, marker, acc, tr);
    }
  }

  /** On a sequence of empty pages the loop asks for every one of them, always with no marker, and fails after the last. */
  lemma {:induction false} EmptyStepsFrom(steps: seq<PageStep>, call: nat, acc: seq<LoadBalancer>, tr: seq<Request>)
    requires forall k :: 0 <= k < |steps| ==> steps[k].PageEmpty?
    requires forall q :: q in tr ==> FirstPageRequest(q)
    ensures var r := ListFrom(steps, call, None, acc, tr);
            && r.lbs == [] && r.err == Some(ScriptEnded)
            && forall q :: q in r.requests ==> FirstPageRequest(q)
    decreases |steps| - call
  {
    var tr1 := tr + [DescribeLoadBalancersRequest(call, None, PageSize)];
    assert forall q :: q in tr1 ==> q in tr || q == tr1[|tr|];
    if call < |steps| {
      EmptyStepsFrom(steps, call + 1, acc, tr1);
    }
  }

  /** A first page request: PageSize entries, no marker. */
  predicate FirstPageRequest(q: Request)
  {
    q.DescribeLoadBalancersRequest? && q.marker == None && q.pageSize == PageSize
  }

  /** The requests of the first `n` page calls, in call order, each call with the marker MarkerBefore calls for. */
  function LogUpTo(steps: seq<PageStep>, n: nat): seq<Request>
  {
    if n == 0 then [] else LogUpTo(steps, n - 1) + StepRequests(steps, n - 1, MarkerBefore(steps, n - 1))
  }

  /** Segments of requests put together, in order. */
  function Concat(segs: seq<seq<Request>>): seq<Request>
  {
    if |segs| == 0 then [] else Concat(segs[..|segs| - 1]) + segs[|segs| - 1]
  }

  /** What each of the first `n` page calls sends, read off the steps. */
  function StepSegments(steps: seq<PageStep>, n: nat): seq<seq<Request>>
  {
    seq(n, k requires 0 <= k < n => StepRequests(steps, k, MarkerBefore(steps, k)))
  }

  /** The log of the first `n` calls is their segments put together. */
  lemma {:induction false} LogUpToSegments(steps: seq<PageStep>, n: nat)
    ensures LogUpTo(steps, n) == Concat(StepSegments(steps, n))
  {
    if n > 0 {
      LogUpToSegments(steps, n - 1);
      assert StepSegments(steps, n)[..n - 1] == StepSegments(steps, n - 1);
    }
  }

  /** Started on the log of the earlier calls, the loop's log is that of every call up to the stopping one, and nothing else. */
  lemma {:induction false} ListFromLog(steps: seq<PageStep>, call: nat, marker: Option<string>,
                                       acc: seq<LoadBalancer>, tr: seq<Request>)
    requires marker == MarkerBefore(steps, call) && tr == LogUpTo(steps, call)
    ensures ListFrom(steps, call, marker, acc, tr).requests == LogUpTo(steps, StopCall(steps, call) + 1)
    decreases |steps| - call
  {
    if Continues(steps, call) {
      ListFromContinues(steps, call, marker, acc, tr);
      NextMarkerFollows(steps, call);
      ListFromLog(steps, call + 1, NextMarker(steps, call, marker),
                  acc + Found(steps, call), tr + StepRequests(steps, call, marker));
    } else {
      ListFromStops(steps, call, marker, acc, tr);
    }
  }

  // ---------------------------------------------------------------------------
  // The steps and the provider's pages

  /** The marker the `call`-th page request should carry, read off the provider's pages: an empty page leaves it as it was (the reference for MarkerBefore). */
  function PageMarkerBefore(env: Provider, call: nat): Option<string>
  {
    if call == 0 then None
    else
      match DescribeLoadBalancers(env, call - 1)
      case Ok(page) => if |page.descriptions| == 0 then PageMarkerBefore(env, call - 1) else page.nextMarker
      case Failed(_) => PageMarkerBefore(env, call - 1)
  }

  /** The names of the `call`-th page, when it returned any (the reference for NamesLookedUp). */
  function PageNamesAt(env: Provider, call: nat): Option<seq<string>>
  {
    match DescribeLoadBalancers(env, call)
    case Ok(page) => if |page.descriptions| == 0 then None else Some(NamesOf(page.descriptions))
    case Failed(_) => None
  }

  /** Matching a scripted page sends only health and security-group lookups. */
  lemma StepsLookUpOnlyAfterTags(filter: map<string, string>, env: Provider)
    requires TagsBelongToPages(filter, env)
    ensures LookupsOnlyAfterTags(Steps(filter, env))
  {
    var steps := Steps(filter, env);
    forall k | 0 <= k < |steps| && steps[k].Processed?
      ensures OnlyLookups(steps[k].outcome.requests)
    {
      assert steps[k] == StepAt(filter, env, k);
    }
  }

  /** The marker of each page request the loop reaches is the one the pages call for. */
  lemma {:induction false} MarkersFollowPages(filter: map<string, string>, env: Provider, call: nat)
    requires TagsBelongToPages(filter, env)
    requires forall k :: 0 <= k < call ==> Continues(Steps(filter, env), k)
    ensures MarkerBefore(Steps(filter, env), call) == PageMarkerBefore(env, call)
  {
    if call > 0 {
      MarkersFollowPages(filter, env, call - 1);
      StepsAgree(filter, env, call - 1);
      assert Continues(Steps(filter, env), call - 1);
    }
  }

  /** A page call makes a tag lookup exactly when its page came back non-empty, and it carries that page's names. */
  lemma NamesFollowPages(filter: map<string, string>, env: Provider, call: nat)
    requires TagsBelongToPages(filter, env)
    ensures NamesLookedUp(Steps(filter, env), call) == PageNamesAt(env, call)
  {
    StepsAgree(filter, env, call);
  }

  /** Every page returned and empty: every step is PageEmpty. */
  lemma EmptyPagesGiveEmptySteps(filter: map<string, string>, env: Provider)
    requires AllPagesEmpty(env)
    ensures TagsBelongToPages(filter, env)
    ensures forall k :: 0 <= k < |env.pages| ==> Steps(filter, env)[k].PageEmpty?
  {
    forall k | 0 <= k < |env.pages|
      ensures Steps(filter, env)[k].PageEmpty?
    {
      assert DescribeLoadBalancers(env, k) == env.pages[k];
    }
  }

  /** A script whose every page is returned, and empty. */
  predicate AllPagesEmpty(env: Provider)
  {
    forall k :: 0 <= k < |env.pages| ==> env.pages[k].Ok? && |env.pages[k].value.descriptions| == 0
  }

  /**
   The requests the `call`-th page call sends with `marker`, read off the
   provider: the page request; for a non-empty page, the lookup of its names;
   and when that lookup succeeds, the health and security-group lookups of
   the descriptions the filter keeps (Lookups), up to the first failing
   health lookup.
   */
  function PageRequests(filter: map<string, string>, env: Provider, call: nat, marker: Option<string>): seq<Request>
    requires TagsBelongToPages(filter, env)
  {
    var pageRequest := [DescribeLoadBalancersRequest(call, marker, PageSize)];
    match DescribeLoadBalancers(env, call)
    case Failed(_) => pageRequest
    case Ok(page) =>
      if |page.descriptions| == 0 then pageRequest
      else
        var names := NamesOf(page.descriptions);
        match env.tagsFor(names)
        case Failed(_) => pageRequest + [DescribeTagsRequest(names)]
        case Ok(tds) =>
          assert TagsBelongToPage(filter, env, env.pages[call].value);
          var descs := DescriptionIndex(page.descriptions);
          var ks := Kept(filter, tds);
          pageRequest + [DescribeTagsRequest(names)] + Lookups(descs, ks, HealthyPrefix(env, ks))
  }

  /** What each of the first `n` page calls sends, read off the provider's pages, with the marker they call for. */
  function PageSegments(filter: map<string, string>, env: Provider, n: nat): seq<seq<Request>>
    requires TagsBelongToPages(filter, env)
  {
    seq(n, k requires 0 <= k < n => PageRequests(filter, env, k, PageMarkerBefore(env, k)))
  }

  /** The requests of the first `n` page calls, in call order, read off the provider's pages. */
  function PageLog(filter: map<string, string>, env: Provider, n: nat): seq<Request>
    requires TagsBelongToPages(filter, env)
  {
    Concat(PageSegments(filter, env, n))
  }

  /** What a page call adds to the log is what the provider's answers call for. */
  lemma PageRequestsOfStep(filter: map<string, string>, env: Provider, call: nat, marker: Option<string>)
    requires TagsBelongToPages(filter, env)
    ensures StepRequests(Steps(filter, env), call, marker) == PageRequests(filter, env, call, marker)
  {
    StepsAgree(filter, env, call);
    var s := StepAt(filter, env, call);
    if s.Processed? {
      assert TagsBelongToPage(filter, env, env.pages[call].value);
      PageMatchesByFilter(filter, env, s.descs, s.tagDescriptions);
    }
  }

  // ---------------------------------------------------------------------------
  // What ListByTags guarantees

  /**
   Pagination: ListByTags requests pages 0, 1, ..., LastCall in order and
   no others; it goes on after every page that is empty or whose matches all
   succeeded with a marker that is neither absent nor empty, and it stops
   after the first page whose request or tag lookup fails, whose health
   lookup fails, or that is non-empty with an absent or empty marker.
   Every page request carries PageSize and the marker PageMarkerBefore
   calls for, so an empty page makes the next request repeat the same
   marker. Every tag lookup carries exactly the names of the page just
   received, and every page up to LastCall that came back non-empty gets
   its tag lookup, right after its page request.
   */
  lemma ListByTagsPagination(filter: map<string, string>, env: Provider)
    requires TagsBelongToPages(filter, env)
    ensures var rq := ListByTagsSpec(filter, env).requests;
            var last := LastCall(filter, env);
            && |PageCalls(rq)| == last + 1
            && (forall k :: 0 <= k <= last ==> PageCalls(rq)[k] == k)
            && (forall k :: 0 <= k < last ==> Continues(Steps(filter, env), k))
            && !Continues(Steps(filter, env), last)
            && (forall t :: 0 <= t < |rq| && rq[t].DescribeLoadBalancersRequest? ==>
                  rq[t].pageSize == PageSize && rq[t].call <= last
                  && rq[t].marker == PageMarkerBefore(env, rq[t].call))
            && (forall t :: 0 <= t < |rq| && rq[t].DescribeTagsRequest? ==>
                  0 < t && rq[t - 1].DescribeLoadBalancersRequest?
                  && PageNamesAt(env, rq[t - 1].call) == Some(rq[t].names))
            && EveryPageLookedUp(env, rq, last)
  {
    var steps := Steps(filter, env);
    var rq := ListByTagsSpec(filter, env).requests;
    var last := LastCall(filter, env);
    assert PagesLookedUp(steps, rq, last + 1) by {
      ListFromLooksUp(steps, 0, None, [], []);
    }
    PagesMatchTagLookups(filter, env, rq, last);
    assert LoggedInOrder(steps, rq, last + 1) by {
      StepsLookUpOnlyAfterTags(filter, env);
      ListFromRequests(steps, 0, [], []);
    }
    ContinuesUntilStop(steps, 0);
    PageRequestsMatchPages(filter, env, rq, last);
    TagLookupsMatchPages(filter, env, rq);
  }

  /** Each page call up to `last` that returned a non-empty page has its tag lookup, with that page's names, right after its page request. */
  ghost predicate EveryPageLookedUp(env: Provider, rq: seq<Request>, last: nat)
  {
    forall k :: 0 <= k <= last && PageNamesAt(env, k).Some? ==>
      exists t :: 0 < t < |rq| && rq[t - 1].DescribeLoadBalancersRequest? && rq[t - 1].call == k
                  && rq[t] == DescribeTagsRequest(PageNamesAt(env, k).value)
  }

  /** The tag lookups of the steps are those of the provider's non-empty pages. */
  lemma PagesMatchTagLookups(filter: map<string, string>, env: Provider, rq: seq<Request>, last: nat)
    requires TagsBelongToPages(filter, env)
    requires PagesLookedUp(Steps(filter, env), rq, last + 1)
    ensures EveryPageLookedUp(env, rq, last)
  {
    forall k | 0 <= k <= last && PageNamesAt(env, k).Some?
      ensures exists t :: 0 < t < |rq| && rq[t - 1].DescribeLoadBalancersRequest? && rq[t - 1].call == k
                          && rq[t] == DescribeTagsRequest(PageNamesAt(env, k).value)
    {
      NamesFollowPages(filter, env, k);
      var t :| TagLookupAt(Steps(filter, env), rq, k, t);
    }
  }

  /** In a log of the page calls 0 .. last, each page request carries the marker the pages call for. */
  lemma PageRequestsMatchPages(filter: map<string, string>, env: Provider, rq: seq<Request>, last: nat)
    requires TagsBelongToPages(filter, env)
    requires LoggedInOrder(Steps(filter, env), rq, last + 1)
    requires forall k :: 0 <= k < last ==> Continues(Steps(filter, env), k)
    ensures forall t :: 0 <= t < |rq| && rq[t].DescribeLoadBalancersRequest? ==>
              rq[t].pageSize == PageSize && rq[t].call <= last
              && rq[t].marker == PageMarkerBefore(env, rq[t].call)
  {
    forall t | 0 <= t < |rq| && rq[t].DescribeLoadBalancersRequest?
      ensures rq[t].call <= last && rq[t].marker == PageMarkerBefore(env, rq[t].call)
    {
      PageCallPosition(rq, t);
      var i :| 0 <= i < |PageCalls(rq)| && PageCalls(rq)[i] == rq[t].call;
      MarkersFollowPages(filter, env, rq[t].call);
    }
  }

  /** Each tag lookup of a log carries the names of the page just received. */
  lemma TagLookupsMatchPages(filter: map<string, string>, env: Provider, rq: seq<Request>)
    requires TagsBelongToPages(filter, env)
    requires TagLookupsFollowPages(Steps(filter, env), rq)
    ensures forall t :: 0 <= t < |rq| && rq[t].DescribeTagsRequest? ==>
              0 < t && rq[t - 1].DescribeLoadBalancersRequest?
              && PageNamesAt(env, rq[t - 1].call) == Some(rq[t].names)
  {
    forall t | 0 <= t < |rq| && rq[t].DescribeTagsRequest?
      ensures PageNamesAt(env, rq[t - 1].call) == Some(rq[t].names)
    {
      NamesFollowPages(filter, env, rq[t - 1].call);
    }
  }

  /** Each page request of a log appears among its PageCalls. */
  lemma {:induction false} PageCallPosition(rq: seq<Request>, t: nat)
    requires t < |rq| && rq[t].DescribeLoadBalancersRequest?
    ensures rq[t].call in PageCalls(rq)
    decreases |rq|
  {
    if t < |rq| - 1 {
      PageCallPosition(rq[..|rq| - 1], t);
    }
  }

  /** Each page call the loop reaches sends what the provider's pages call for, marker included. */
  lemma SegmentFollowsPage(filter: map<string, string>, env: Provider, k: nat)
    requires TagsBelongToPages(filter, env)
    requires k <= LastCall(filter, env)
    ensures StepRequests(Steps(filter, env), k, MarkerBefore(Steps(filter, env), k))
         == PageRequests(filter, env, k, PageMarkerBefore(env, k))
  {
    ContinuesUntilStop(Steps(filter, env), 0);
    MarkersFollowPages(filter, env, k);
    PageRequestsOfStep(filter, env, k, PageMarkerBefore(env, k));
  }

  /** Up to the last call, the segments read off the steps are those read off the pages. */
  lemma SegmentsFollowPages(filter: map<string, string>, env: Provider, n: nat)
    requires TagsBelongToPages(filter, env)
    requires n <= LastCall(filter, env) + 1
    ensures StepSegments(Steps(filter, env), n) == PageSegments(filter, env, n)
  {
    forall k | 0 <= k < n
      ensures StepSegments(Steps(filter, env), n)[k] == PageSegments(filter, env, n)[k]
    {
      SegmentFollowsPage(filter, env, k);
    }
  }

  /** Through the last call, the log read off the steps is the log read off the pages. */
  lemma StepLogIsPageLog(filter: map<string, string>, env: Provider)
    requires TagsBelongToPages(filter, env)
    ensures Concat(StepSegments(Steps(filter, env), StopCall(Steps(filter, env), 0) + 1))
         == PageLog(filter, env, LastCall(filter, env) + 1)
  {
    var steps := Steps(filter, env);
    var n := LastCall(filter, env) + 1;
    assert n == StopCall(steps, 0) + 1;
    SegmentsFollowPages(filter, env, n);
    assert Concat(StepSegments(steps, n)) == Concat(PageSegments(filter, env, n));
  }

  /** The log of a whole run of the loop, as the segments of calls 0 .. the stopping call. */
  lemma ListFromSegments(steps: seq<PageStep>)
    ensures ListFrom(steps, 0, None, [], []).requests == Concat(StepSegments(steps, StopCall(steps, 0) + 1))
  {
    ListFromLog(steps, 0, None, [], []);
    LogUpToSegments(steps, StopCall(steps, 0) + 1);
  }

  /**
   The request log, whole: ListByTags sends exactly the requests of page
   calls 0 .. LastCall, one call after the other, each call's page request,
   tag lookup, health and security-group lookups before the next call's page
   request, and nothing else.
   */
  lemma ListByTagsLog(filter: map<string, string>, env: Provider)
    requires TagsBelongToPages(filter, env)
    ensures ListByTagsSpec(filter, env).requests == PageLog(filter, env, LastCall(filter, env) + 1)
  {
    ListFromSegments(Steps(filter, env));
    StepLogIsPageLog(filter, env);
  }

  /**
   Results: unless the last page request itself failed, ListByTags returns the
   contributions of all the pages it requested, concatenated in page order,
   and the failure of the last page call (none exactly when the last page
   ended pagination cleanly).
   */
  lemma ListByTagsOutcome(filter: map<string, string>, env: Provider)
    requires TagsBelongToPages(filter, env)
    ensures var steps := Steps(filter, env);
            var r := ListByTagsSpec(filter, env);
            var last := LastCall(filter, env);
            var s := StepIn(steps, last);
            && r.lbs == (if s.PageFailed? then [] else Gathered(steps, last + 1))
            && r.err == ErrorAt(steps, last)
            && (r.err.None? <==> s.Processed? && s.outcome.err.None? && EndOfPages(s.nextMarker))
  {
    var steps := Steps(filter, env);
    ListFromError(steps, 0, None, [], []);
    ListFromGathers(steps, 0, None, []);
  }

  /**
   The error policy, case by case: a failed page request discards everything;
   a failed tag lookup keeps what earlier pages gathered; a failed health
   lookup keeps that and the matches assembled before it on the same page.
   */
  lemma ListByTagsFailurePolicy(filter: map<string, string>, env: Provider)
    requires TagsBelongToPages(filter, env)
    ensures var steps := Steps(filter, env);
            var r := ListByTagsSpec(filter, env);
            var last := LastCall(filter, env);
            var s := StepIn(steps, last);
            && (s.PageFailed? ==> r.lbs == [] && r.err == Some(s.error))
            && (s.TagsFailed? ==> r.lbs == Gathered(steps, last) && r.err == Some(s.error))
            && (s.Processed? && s.outcome.err.Some? ==>
                  r.lbs == Gathered(steps, last) + s.outcome.found && r.err == s.outcome.err)
  {
    var steps := Steps(filter, env);
    ListByTagsOutcome(filter, env);
    var last := LastCall(filter, env);
    assert Gathered(steps, last + 1) == Gathered(steps, last) + Found(steps, last);
    if StepIn(steps, last).TagsFailed? {
      assert Gathered(steps, last) + [] == Gathered(steps, last);
    }
  }

  /** A tag lookup never carries more names than a page holds, nor none at all. */
  lemma TagBatchesWithinPageSize(filter: map<string, string>, env: Provider)
    requires TagsBelongToPages(filter, env)
    requires HonoursPageSize(env)
    ensures forall q :: q in ListByTagsSpec(filter, env).requests && q.DescribeTagsRequest? ==>
              0 < |q.names| <= PageSize
  {
    ListByTagsPagination(filter, env);
    var rq := ListByTagsSpec(filter, env).requests;
    forall q | q in rq && q.DescribeTagsRequest?
      ensures 0 < |q.names| <= PageSize
    {
      var t :| 0 <= t < |rq| && rq[t] == q;
      var c := rq[t - 1].call;
      assert PageNamesAt(env, c) == Some(q.names);
      assert DescribeLoadBalancers(env, c).Ok?;
    }
  }

  /**
   Pages that come back empty never end the loop, whatever their markers: on
   a script of empty pages ListByTags asks for every one of them, always with
   no marker, and stops only when the provider fails.
   */
  lemma EmptyPagesNeverEnd(filter: map<string, string>, env: Provider)
    requires AllPagesEmpty(env)
    ensures TagsBelongToPages(filter, env)
    ensures var r := ListByTagsSpec(filter, env);
            && LastCall(filter, env) == |env.pages|
            && r.lbs == [] && r.err == Some(ScriptEnded)
            && forall q :: q in r.requests ==> FirstPageRequest(q)
  {
    EmptyPagesGiveEmptySteps(filter, env);
    var steps := Steps(filter, env);
    var n := |env.pages|;
    assert !Continues(steps, n);
    assert forall k :: 0 <= k < n ==> Continues(steps, k);
    ContinuesUntilStop(steps, 0);
    EmptyStepsFrom(steps, 0, [], []);
  }

  // ---------------------------------------------------------------------------
  // Every result is a match

  /**
   `lb` was assembled from the j-th tag description the provider returned for
   the `call`-th page: that page was returned and non-empty, the description's
   tags contain the filter, its load balancer is on the page, and Enrich
   turns the two into `lb`.
   */
  predicate MatchedAt(filter: map<string, string>, env: Provider, call: nat, j: nat, lb: LoadBalancer)
  {
    && DescribeLoadBalancers(env, call).Ok?
    && var page := DescribeLoadBalancers(env, call).value;
       && |page.descriptions| > 0
       && env.tagsFor(NamesOf(page.descriptions)).Ok?
       && var tds := env.tagsFor(NamesOf(page.descriptions)).value;
          && j < |tds|
          && ContainsTags(filter, tds[j].tags)
          && var descs := DescriptionIndex(page.descriptions);
             && tds[j].loadBalancerName in descs
             && Enrich(env, descs[tds[j].loadBalancerName], tds[j]) == Ok(lb)
  }

  /** Every load balancer the `call`-th page call contributed matches. */
  ghost predicate FoundMatch(filter: map<string, string>, env: Provider, steps: seq<PageStep>, call: nat)
  {
    forall lb :: lb in Found(steps, call) ==> exists j: nat :: MatchedAt(filter, env, call, j, lb)
  }

  /** Every load balancer the `call`-th page call contributes is a match of that page. */
  lemma FoundAreMatches(filter: map<string, string>, env: Provider, call: nat)
    requires TagsBelongToPages(filter, env)
    ensures FoundMatch(filter, env, Steps(filter, env), call)
  {
    StepsAgree(filter, env, call);
    var s := StepAt(filter, env, call);
    if s.Processed? {
      assert TagsBelongToPage(filter, env, env.pages[call].value);
      PageMatchesByFilter(filter, env, s.descs, s.tagDescriptions);
      var ks := Kept(filter, s.tagDescriptions);
      forall lb | lb in s.outcome.found
        ensures exists j: nat :: MatchedAt(filter, env, call, j, lb)
      {
        var i :| 0 <= i < |s.outcome.found| && s.outcome.found[i] == lb;
        assert ks[i] in ks;
        var j :| 0 <= j < |s.tagDescriptions| && s.tagDescriptions[j] == ks[i];
        assert MatchedAt(filter, env, call, j, lb);
      }
    }
  }

  /** Every load balancer one of the first `n` page calls contributed matches. */
  ghost predicate GatheredMatch(filter: map<string, string>, env: Provider, steps: seq<PageStep>, n: nat)
  {
    forall lb :: lb in Gathered(steps, n) ==> exists k: nat, j: nat :: k < n && MatchedAt(filter, env, k, j, lb)
  }

  /** Every load balancer the first `n` page calls contributed is a match of one of them. */
  lemma {:induction false} GatheredAreMatches(filter: map<string, string>, env: Provider, steps: seq<PageStep>, n: nat)
    requires forall k :: 0 <= k < n ==> FoundMatch(filter, env, steps, k)
    ensures GatheredMatch(filter, env, steps, n)
  {
    if n > 0 {
      GatheredAreMatches(filter, env, steps, n - 1);
      GatheredMatchGrows(filter, env, steps, n - 1);
    }
  }

  /** One more call whose contribution matches keeps everything gathered a match. */
  lemma GatheredMatchGrows(filter: map<string, string>, env: Provider, steps: seq<PageStep>, m: nat)
    requires GatheredMatch(filter, env, steps, m)
    requires FoundMatch(filter, env, steps, m)
    ensures GatheredMatch(filter, env, steps, m + 1)
  {
    var all := Gathered(steps, m + 1);
    forall lb | lb in all
      ensures exists k: nat, j: nat :: k < m + 1 && MatchedAt(filter, env, k, j, lb)
    {
      if lb !in Gathered(steps, m) {
        var j: nat :| MatchedAt(filter, env, m, j, lb);
      }
    }
  }

  /**
   Soundness: every load balancer ListByTags returns was assembled from a tag
   description, of a page it requested, whose tags contain the filter; its
   name, fields and Tags are those Enrich derives from that description.
   */
  lemma ListByTagsSound(filter: map<string, string>, env: Provider)
    requires TagsBelongToPages(filter, env)
    ensures var r := ListByTagsSpec(filter, env);
            forall lb :: lb in r.lbs ==> exists k: nat, j: nat :: k <= LastCall(filter, env) && MatchedAt(filter, env, k, j, lb)
  {
    var steps := Steps(filter, env);
    forall k | 0 <= k < LastCall(filter, env) + 1
      ensures FoundMatch(filter, env, steps, k)
    {
      FoundAreMatches(filter, env, k);
    }
    ListByTagsOutcome(filter, env);
    GatheredAreMatches(filter, env, steps, LastCall(filter, env) + 1);
  }

  /**
   A tag description that names no load balancer of its page but does not
   match the filter is allowed, and skipped: a one-page script whose tag
   response holds only such a description yields no load balancers and no error.
   */
  lemma ForeignNonMatchingIsSkipped()
    ensures var env := Provider(
              [Ok(Page([LoadBalancerDescription("a", "a.example", "internet-facing", [], [])], None))],
              names => Ok([TagDescription("zzz", [])]),
              name => Ok([]),
              ids => Ok([]));
            var filter := map["App" := "api"];
            && TagsBelongToPages(filter, env)
            && ListByTagsSpec(filter, env).lbs == []
            && ListByTagsSpec(filter, env).err == None
  {
    var env := Provider(
      [Ok(Page([LoadBalancerDescription("a", "a.example", "internet-facing", [], [])], None))],
      names => Ok([TagDescription("zzz", [])]),
      name => Ok([]),
      ids => Ok([]));
    var filter := map["App" := "api"];
    assert "App" in filter && !ContainsTag(ElbTag("App", filter["App"]), []);
    var steps := Steps(filter, env);
    StepsAgree(filter, env, 0);
    assert StepIn(steps, 0).Processed?;
    assert StepIn(steps, 0).outcome.found == [];
  }
}
