/**
 The records the discovery returns and the per-load-balancer work of
 ListByTags: deriving the listener fields, copying instance health,
 resolving security-group names, and matching one page of tag descriptions
 against the filter.
 */
module ElbUtil {
  import opened Wrappers
  import opened ElbApi
  import opened ElbTags

  /** A snapshot of one backend instance's health. */
  datatype InstanceState = InstanceState(instanceId: string, reasonCode: string, state: string, description: string)

  /** One discovered load balancer, fully enriched. */
  datatype LoadBalancer = LoadBalancer(
    name: string,
    dnsName: string,
    scheme: string,
    sslCert: string,
    instancePort: int,
    instanceStates: seq<InstanceState>,
    securityGroups: seq<string>,
    tags: map<string, string>)

  // ---------------------------------------------------------------------------
  // Listener derivation

  /** The instance port of the first listener, or 0 when there is none. */
  function FirstInstancePort(ls: seq<Listener>): int
  {
    if |ls| == 0 then 0 else ls[0].instancePort
  }

  /** The certificate of the last listener that has one, or "" when none has. */
  function LastCertificate(ls: seq<Listener>): string
  {
    if |ls| == 0 then ""
    else if ls[|ls| - 1].sslCertificateId.Some? then ls[|ls| - 1].sslCertificateId.value
    else LastCertificate(ls[..|ls| - 1])
  }

  /** A listener with a certificate and no certificate after it decides the result. */
  lemma {:induction false} LastCertificateWins(ls: seq<Listener>, i: nat)
    requires i < |ls| && ls[i].sslCertificateId.Some?
    requires forall j :: i < j < |ls| ==> ls[j].sslCertificateId.None?
    ensures LastCertificate(ls) == ls[i].sslCertificateId.value
  {
    if i < |ls| - 1 {
      var prefix := ls[..|ls| - 1];
      assert prefix[i] == ls[i];
      LastCertificateWins(prefix, i);
    }
  }

  /** Without any certificate the result stays empty. */
  lemma {:induction false} NoCertificateIsEmpty(ls: seq<Listener>)
    requires forall j :: 0 <= j < |ls| ==> ls[j].sslCertificateId.None?
    ensures LastCertificate(ls) == ""
  {
    if |ls| > 0 {
      var prefix := ls[..|ls| - 1];
      assert forall j :: 0 <= j < |prefix| ==> prefix[j] == ls[j];
      NoCertificateIsEmpty(prefix);
    }
  }

  /** The listener scan of ListByTags: the first port, and the last certificate seen. */
  method DeriveListener(ls: seq<Listener>) returns (instancePort: int, sslCert: string)
    ensures instancePort == FirstInstancePort(ls)
    ensures sslCert == LastCertificate(ls)
  {
    instancePort, sslCert := 0, "";
    if |ls| > 0 {
      instancePort := ls[0].instancePort;
      for i := 0 to |ls|
        invariant sslCert == LastCertificate(ls[..i])
      {
        assert ls[..i + 1][..i] == ls[..i];
        if ls[i].sslCertificateId.Some? {
          sslCert := ls[i].sslCertificateId.value;
        }
      }
      assert ls[..|ls|] == ls;
    }
  }

  // ---------------------------------------------------------------------------
  // Instance health, string slices and security groups

  /** The instance state copied from one health entry. */
  function InstanceStateOf(h: InstanceHealth): InstanceState
  {
    InstanceState(h.instanceId, h.reasonCode, h.state, h.description)
  }

  /** The instance states copied from a health response, in order. */
  function InstanceStatesOf(hs: seq<InstanceHealth>): seq<InstanceState>
  {
    seq(|hs|, i requires 0 <= i < |hs| => InstanceStateOf(hs[i]))
  }

  /** Copies a health response into instance states, one per instance, in the reported order. */
  method ToInstanceStates(hs: seq<InstanceHealth>) returns (states: seq<InstanceState>)
    ensures |states| == |hs|
    ensures forall i :: 0 <= i < |hs| ==>
      && states[i].instanceId == hs[i].instanceId
      && states[i].reasonCode == hs[i].reasonCode
      && states[i].state == hs[i].state
      && states[i].description == hs[i].description
    ensures states == InstanceStatesOf(hs)
  {
    var iStates := new InstanceState[|hs|];
    for i := 0 to |hs|
      invariant forall j :: 0 <= j < i ==> iStates[j] == InstanceStateOf(hs[j])
    {
      iStates[i] := InstanceStateOf(hs[i]);
    }
    states := iStates[..];
  }

  /** stringSlice: dereferences every pointer of the list, keeping length and order. */
  method StringSlice(ss: seq<Option<string>>) returns (res: seq<string>)
    requires forall i :: 0 <= i < |ss| ==> ss[i].Some?
    ensures |res| == |ss|
    ensures forall i :: 0 <= i < |ss| ==> ss[i] == Some(res[i])
  {
    var buf := new string[|ss|];
    for i := 0 to |ss|
      invariant forall j :: 0 <= j < i ==> ss[j] == Some(buf[j])
    {
      buf[i] := ss[i].value;
    }
    res := buf[..];
  }

  /** The names SGNames yields for a list of group ids: none when the lookup fails. */
  function SecurityGroupNames(env: Provider, sgIds: seq<string>): seq<string>
  {
    match env.groupsOf(sgIds)
    case Failed(_) => []
    case Ok(groups) => seq(|groups|, i requires 0 <= i < |groups| => groups[i].groupName)
  }

  /** SGNames: one batched lookup of the ids; on failure an empty list and the error. */
  method SGNames(env: Provider, sgIds: seq<string>) returns (names: seq<string>, err: Option<ApiError>)
    ensures err.Some? <==> env.groupsOf(sgIds).Failed?
    ensures err.Some? ==> err.value == env.groupsOf(sgIds).error && names == []
    ensures env.groupsOf(sgIds).Ok? ==>
      var groups := env.groupsOf(sgIds).value;
      |names| == |groups| && forall i :: 0 <= i < |groups| ==> names[i] == groups[i].groupName
    ensures names == SecurityGroupNames(env, sgIds)
  {
    names := [];
    var res := env.groupsOf(sgIds);
    if res.Failed? {
      return names, Some(res.error);
    }
    for i := 0 to |res.value|
      invariant |names| == i
      invariant forall j :: 0 <= j < i ==> names[j] == res.value[j].groupName
    {
      names := names + [res.value[i].groupName];
    }
    err := None;
  }

  // ---------------------------------------------------------------------------
  // Matching one page

  /** The load balancer ListByTags assembles for a matched tag description, or the health lookup's failure. */
  function Enrich(env: Provider, d: LoadBalancerDescription, td: TagDescription): (r: Response<LoadBalancer>)
    ensures r.Failed? <==> env.healthOf(td.loadBalancerName).Failed?
    ensures r.Failed? ==> r.error == env.healthOf(td.loadBalancerName).error
    ensures r.Ok? ==>
      var hs := env.healthOf(td.loadBalancerName).value;
      var lb := r.value;
      && lb.name == d.loadBalancerName && lb.dnsName == d.dnsName && lb.scheme == d.scheme
      && lb.instancePort == FirstInstancePort(d.listeners) && lb.sslCert == LastCertificate(d.listeners)
      && |lb.instanceStates| == |hs|
      && (forall i :: 0 <= i < |hs| ==>
            && lb.instanceStates[i].instanceId == hs[i].instanceId
            && lb.instanceStates[i].reasonCode == hs[i].reasonCode
            && lb.instanceStates[i].state == hs[i].state
            && lb.instanceStates[i].description == hs[i].description)
      && lb.securityGroups == SecurityGroupNames(env, d.securityGroups)
      && lb.tags == TagMap(td.tags)
  {
    match env.healthOf(td.loadBalancerName)
    case Failed(e) => Failed(e)
    case Ok(hs) =>
      Ok(LoadBalancer(
        d.loadBalancerName, d.dnsName, d.scheme,
        LastCertificate(d.listeners), FirstInstancePort(d.listeners),
        InstanceStatesOf(hs), SecurityGroupNames(env, d.securityGroups), TagMap(td.tags)))
  }

  /** A failed security-group lookup does not stop the load balancer from being assembled. */
  lemma SecurityGroupFailureIsSwallowed(env: Provider, d: LoadBalancerDescription, td: TagDescription)
    requires env.healthOf(td.loadBalancerName).Ok?
    requires env.groupsOf(d.securityGroups).Failed?
    ensures Enrich(env, d, td).Ok?
    ensures Enrich(env, d, td).value.securityGroups == []
    ensures Enrich(env, d, td).value.name == d.loadBalancerName
  {
  }

  /** What one page's matching produces: the assembled load balancers, a health failure if any, and the lookups made. */
  datatype PageOutcome = PageOutcome(found: seq<LoadBalancer>, err: Option<ApiError>, requests: seq<Request>)

  /** Every tag description that matches the filter names a load balancer of the page's index. */
  predicate MatchesIndexed(filter: map<string, string>, descs: map<string, LoadBalancerDescription>, tds: seq<TagDescription>)
  {
    forall td :: td in tds && ContainsTags(filter, td.tags) ==> td.loadBalancerName in descs
  }

  /** Walks the tag descriptions in response order, assembling each match; a failed health lookup stops the walk. */
  function PageMatches(filter: map<string, string>, env: Provider,
                       descs: map<string, LoadBalancerDescription>, tds: seq<TagDescription>): (r: PageOutcome)
    requires MatchesIndexed(filter, descs, tds)
    ensures forall q :: q in r.requests ==> q.DescribeInstanceHealthRequest? || q.DescribeSecurityGroupsRequest?
    decreases |tds|
  {
    if |tds| == 0 then PageOutcome([], None, [])
    else
      var td := tds[0];
      assert td in tds;
      if !ContainsTags(filter, td.tags) then PageMatches(filter, env, descs, tds[1..])
      else
        var lb := descs[td.loadBalancerName];
        match Enrich(env, lb, td)
        case Failed(e) => PageOutcome([], Some(e), [DescribeInstanceHealthRequest(td.loadBalancerName)])
        case Ok(built) =>
          var rest := PageMatches(filter, env, descs, tds[1..]);
          PageOutcome([built] + rest.found, rest.err,
                      [DescribeInstanceHealthRequest(td.loadBalancerName),
                       DescribeSecurityGroupsRequest(lb.securityGroups)] + rest.requests)
  }

  /** The tag descriptions that satisfy the filter, in response order. */
  function Kept(filter: map<string, string>, tds: seq<TagDescription>): (ks: seq<TagDescription>)
    ensures forall td :: td in ks <==> td in tds && ContainsTags(filter, td.tags)
    ensures |ks| <= |tds|
  {
    if |tds| == 0 then []
    else (if ContainsTags(filter, tds[0].tags) then [tds[0]] else []) + Kept(filter, tds[1..])
  }

  /** How many of the leading descriptions have a successful health lookup. */
  function HealthyPrefix(env: Provider, ks: seq<TagDescription>): (n: nat)
    ensures n <= |ks|
    ensures forall i :: 0 <= i < n ==> env.healthOf(ks[i].loadBalancerName).Ok?
    ensures n < |ks| ==> env.healthOf(ks[n].loadBalancerName).Failed?
  {
    if |ks| == 0 || env.healthOf(ks[0].loadBalancerName).Failed? then 0
    else
      var n := HealthyPrefix(env, ks[1..]);
      assert forall i :: 1 <= i < n + 1 ==> ks[i] == ks[1..][i - 1];
      1 + n
  }

  /**
   One page's result, stated as a filter followed by a map: the load balancers
   found are those assembled from the matching descriptions, in response order,
   up to the first whose health lookup fails, and that failure is the error.
   */
  lemma {:induction false} PageMatchesByFilter(filter: map<string, string>, env: Provider,
                                               descs: map<string, LoadBalancerDescription>, tds: seq<TagDescription>)
    requires MatchesIndexed(filter, descs, tds)
    ensures MatchesKept(filter, env, descs, tds)
    decreases |tds|
  {
    if |tds| > 0 {
      var td := tds[0];
      assert td in tds;
      assert forall t :: t in tds[1..] ==> t in tds;
      PageMatchesByFilter(filter, env, descs, tds[1..]);
      if !ContainsTags(filter, td.tags) {
        SkippedDescription(filter, env, descs, tds);
      } else if env.healthOf(td.loadBalancerName).Failed? {
        FailedDescription(filter, env, descs, tds);
      } else {
        BuiltDescription(filter, env, descs, tds);
      }
    }
  }

  /**
   The outcome of a page is the enriched kept descriptions up to the first
   whose health lookup fails, in tag-response order, and that failure.
   */
  predicate MatchesKept(filter: map<string, string>, env: Provider,
                        descs: map<string, LoadBalancerDescription>, tds: seq<TagDescription>)
    requires MatchesIndexed(filter, descs, tds)
  {
    var ks := Kept(filter, tds);
    var n := HealthyPrefix(env, ks);
    var r := PageMatches(filter, env, descs, tds);
    && |r.found| == n
    && (forall i :: 0 <= i < n ==> Enrich(env, descs[ks[i].loadBalancerName], ks[i]) == Ok(r.found[i]))
    && r.err == (if n < |ks| then Some(env.healthOf(ks[n].loadBalancerName).error) else None)
    && r.requests == Lookups(descs, ks, n)
  }

  /**
   The lookups a page sends for its kept descriptions `ks` when the first `n`
   health lookups succeed: a health lookup and then a security-group lookup
   for each of those, followed by the failing health lookup, if there is one.
   */
  function Lookups(descs: map<string, LoadBalancerDescription>, ks: seq<TagDescription>, n: nat): seq<Request>
    requires n <= |ks|
    requires forall td :: td in ks ==> td.loadBalancerName in descs
    decreases n
  {
    if n == 0 then
      (if |ks| > 0 then [DescribeInstanceHealthRequest(ks[0].loadBalancerName)] else [])
    else
      assert ks[0] in ks && forall td :: td in ks[1..] ==> td in ks;
      [DescribeInstanceHealthRequest(ks[0].loadBalancerName),
       DescribeSecurityGroupsRequest(descs[ks[0].loadBalancerName].securityGroups)]
      + Lookups(descs, ks[1..], n - 1)
  }

  /**
   Lookups position by position: the i-th assembled description has its
   health lookup at 2 * i and its security-group lookup at 2 * i + 1, and the
   failing health lookup, if any, comes last.
   */
  lemma {:induction false} LookupsIndexed(descs: map<string, LoadBalancerDescription>, ks: seq<TagDescription>, n: nat)
    requires n <= |ks|
    requires forall td :: td in ks ==> td.loadBalancerName in descs
    ensures var rq := Lookups(descs, ks, n);
            && |rq| == 2 * n + (if n < |ks| then 1 else 0)
            && (forall i :: 0 <= i < n ==>
                  && rq[2 * i] == DescribeInstanceHealthRequest(ks[i].loadBalancerName)
                  && rq[2 * i + 1] == DescribeSecurityGroupsRequest(descs[ks[i].loadBalancerName].securityGroups))
            && (n < |ks| ==> rq[2 * n] == DescribeInstanceHealthRequest(ks[n].loadBalancerName))
    decreases n
  {
    if n > 0 {
      var tail := ks[1..];
      assert forall td :: td in tail ==> td in ks;
      LookupsIndexed(descs, tail, n - 1);
      LookupsShift(descs, ks, n);
    }
  }

  /** One step of LookupsIndexed: the lookups of the tail, two positions further on. */
  lemma LookupsShift(descs: map<string, LoadBalancerDescription>, ks: seq<TagDescription>, n: nat)
    requires 0 < n <= |ks|
    requires forall td :: td in ks ==> td.loadBalancerName in descs
    requires var rt := Lookups(descs, ks[1..], n - 1);
             && |rt| == 2 * (n - 1) + (if n < |ks| then 1 else 0)
             && (forall i :: 0 <= i < n - 1 ==>
                   && rt[2 * i] == DescribeInstanceHealthRequest(ks[1..][i].loadBalancerName)
                   && rt[2 * i + 1] == DescribeSecurityGroupsRequest(descs[ks[1..][i].loadBalancerName].securityGroups))
             && (n < |ks| ==> rt[2 * (n - 1)] == DescribeInstanceHealthRequest(ks[1..][n - 1].loadBalancerName))
    ensures var rq := Lookups(descs, ks, n);
            && |rq| == 2 * n + (if n < |ks| then 1 else 0)
            && (forall i :: 0 <= i < n ==>
                  && rq[2 * i] == DescribeInstanceHealthRequest(ks[i].loadBalancerName)
                  && rq[2 * i + 1] == DescribeSecurityGroupsRequest(descs[ks[i].loadBalancerName].securityGroups))
            && (n < |ks| ==> rq[2 * n] == DescribeInstanceHealthRequest(ks[n].loadBalancerName))
  {
    var tail := ks[1..];
    var rq := Lookups(descs, ks, n);
    var rt := Lookups(descs, tail, n - 1);
    assert ks[0] in ks;
    assert rq == [rq[0], rq[1]] + rt;
    forall i | 1 <= i < n
      ensures rq[2 * i] == DescribeInstanceHealthRequest(ks[i].loadBalancerName)
      ensures rq[2 * i + 1] == DescribeSecurityGroupsRequest(descs[ks[i].loadBalancerName].securityGroups)
    {
      assert tail[i - 1] == ks[i];
      var j := 2 * (i - 1);
      assert rq[j + 2] == rt[j] && rq[j + 3] == rt[j + 1];
    }
    if n < |ks| {
      assert tail[n - 1] == ks[n];
      assert rq[2 * n] == rt[2 * (n - 1)];
    }
  }

  /** A first description that misses the filter changes neither the kept descriptions nor the page's outcome. */
  lemma SkippedDescription(filter: map<string, string>, env: Provider,
                           descs: map<string, LoadBalancerDescription>, tds: seq<TagDescription>)
    requires |tds| > 0 && MatchesIndexed(filter, descs, tds)
    requires !ContainsTags(filter, tds[0].tags)
    requires MatchesKept(filter, env, descs, tds[1..])
    ensures MatchesKept(filter, env, descs, tds)
  {
    assert Kept(filter, tds) == Kept(filter, tds[1..]);
  }

  /** A first description that matches but whose health lookup fails makes the page's outcome that failure, with nothing found. */
  lemma FailedDescription(filter: map<string, string>, env: Provider,
                          descs: map<string, LoadBalancerDescription>, tds: seq<TagDescription>)
    requires |tds| > 0 && MatchesIndexed(filter, descs, tds)
    requires ContainsTags(filter, tds[0].tags) && env.healthOf(tds[0].loadBalancerName).Failed?
    ensures MatchesKept(filter, env, descs, tds)
  {
    var ks := Kept(filter, tds);
    assert ks == [tds[0]] + Kept(filter, tds[1..]);
    assert HealthyPrefix(env, ks) == 0;
  }

  /** A first description that matches and is assembled puts its load balancer and its two lookups in front of the rest's outcome. */
  lemma BuiltDescription(filter: map<string, string>, env: Provider,
                         descs: map<string, LoadBalancerDescription>, tds: seq<TagDescription>)
    requires |tds| > 0 && MatchesIndexed(filter, descs, tds)
    requires ContainsTags(filter, tds[0].tags) && env.healthOf(tds[0].loadBalancerName).Ok?
    requires MatchesKept(filter, env, descs, tds[1..])
    ensures MatchesKept(filter, env, descs, tds)
  {
    var ks := Kept(filter, tds);
    var ks' := Kept(filter, tds[1..]);
    var r := PageMatches(filter, env, descs, tds);
    var r' := PageMatches(filter, env, descs, tds[1..]);
    KeptFirst(filter, tds);
    HealthyFirst(env, ks);
    BuiltFirst(filter, env, descs, tds);
    assert r.found[1..] == r'.found;
    EnrichedShift(env, descs, ks, r.found, HealthyPrefix(env, ks'));
    assert forall td :: td in ks' ==> td in ks;
    assert Lookups(descs, ks, HealthyPrefix(env, ks)) == r.requests;
  }

  /** Index by index enrichment of a tail carries over to the whole sequence. */
  lemma EnrichedShift(env: Provider, descs: map<string, LoadBalancerDescription>,
                      ks: seq<TagDescription>, found: seq<LoadBalancer>, n: nat)
    requires 0 < |ks| && 0 < |found| && n < |ks| && n < |found|
    requires forall td :: td in ks ==> td.loadBalancerName in descs
    requires Enrich(env, descs[ks[0].loadBalancerName], ks[0]) == Ok(found[0])
    requires forall i :: 0 <= i < n ==> Enrich(env, descs[ks[1..][i].loadBalancerName], ks[1..][i]) == Ok(found[1..][i])
    ensures forall i :: 0 <= i < n + 1 ==> Enrich(env, descs[ks[i].loadBalancerName], ks[i]) == Ok(found[i])
  {
    forall i | 1 <= i < n + 1
      ensures Enrich(env, descs[ks[i].loadBalancerName], ks[i]) == Ok(found[i])
    {
      assert ks[1..][i - 1] == ks[i] && found[1..][i - 1] == found[i];
    }
  }

  /** A first description that matches the filter heads the kept descriptions. */
  lemma KeptFirst(filter: map<string, string>, tds: seq<TagDescription>)
    requires |tds| > 0 && ContainsTags(filter, tds[0].tags)
    ensures Kept(filter, tds) == [tds[0]] + Kept(filter, tds[1..])
    ensures Kept(filter, tds)[1..] == Kept(filter, tds[1..])
  {
    assert ([tds[0]] + Kept(filter, tds[1..]))[1..] == Kept(filter, tds[1..]);
  }

  /** A first kept description whose health lookup succeeds adds one to the healthy prefix. */
  lemma HealthyFirst(env: Provider, ks: seq<TagDescription>)
    requires |ks| > 0 && env.healthOf(ks[0].loadBalancerName).Ok?
    ensures HealthyPrefix(env, ks) == HealthyPrefix(env, ks[1..]) + 1
  {
  }

  /** A first matching description with a successful health lookup contributes its enriched load balancer and both its lookups. */
  lemma BuiltFirst(filter: map<string, string>, env: Provider,
                   descs: map<string, LoadBalancerDescription>, tds: seq<TagDescription>)
    requires |tds| > 0 && MatchesIndexed(filter, descs, tds)
    requires ContainsTags(filter, tds[0].tags) && env.healthOf(tds[0].loadBalancerName).Ok?
    ensures var r := PageMatches(filter, env, descs, tds);
            var r' := PageMatches(filter, env, descs, tds[1..]);
            && Enrich(env, descs[tds[0].loadBalancerName], tds[0]).Ok?
            && r.found == [Enrich(env, descs[tds[0].loadBalancerName], tds[0]).value] + r'.found
            && r.err == r'.err
            && r.requests == [DescribeInstanceHealthRequest(tds[0].loadBalancerName),
                              DescribeSecurityGroupsRequest(descs[tds[0].loadBalancerName].securityGroups)]
                             + r'.requests
  {
    assert tds[0] in tds;
  }

  /** The outcome of a page after a prefix: what the prefix found and asked for, followed by the rest's outcome. */
  function AfterPrefix(found: seq<LoadBalancer>, requests: seq<Request>, rest: PageOutcome): PageOutcome
  {
    PageOutcome(found + rest.found, rest.err, requests + rest.requests)
  }

  /** Moving one assembled load balancer and its lookups from the rest into what was already found. */
  lemma AfterPrefixShift(found: seq<LoadBalancer>, requests: seq<Request>, built: LoadBalancer, asked: seq<Request>, rest: PageOutcome)
    ensures AfterPrefix(found, requests, PageOutcome([built] + rest.found, rest.err, asked + rest.requests))
         == AfterPrefix(found + [built], requests + asked, rest)
  {
    assert found + ([built] + rest.found) == (found + [built]) + rest.found;
    assert requests + (asked + rest.requests) == (requests + asked) + rest.requests;
  }

  /** The inner loop of ListByTags over one page's tag descriptions. */
  method MatchPage(filter: map<string, string>, env: Provider,
                   descs: map<string, LoadBalancerDescription>, tds: seq<TagDescription>)
    returns (found: seq<LoadBalancer>, err: Option<ApiError>, ghost requests: seq<Request>)
    requires MatchesIndexed(filter, descs, tds)
    ensures found == PageMatches(filter, env, descs, tds).found
    ensures err == PageMatches(filter, env, descs, tds).err
    ensures requests == PageMatches(filter, env, descs, tds).requests
  {
    found, err, requests := [], None, [];
    for j := 0 to |tds|
      invariant PageMatches(filter, env, descs, tds) == AfterPrefix(found, requests, PageMatches(filter, env, descs, tds[j..]))
    {
      var d := tds[j];
      ghost var old_requests := requests;
      if ContainsTags(filter, d.tags) {
        var lb := descs[d.loadBalancerName];
        var instancePort, sslCert := DeriveListener(lb.listeners);
        requests := requests + [DescribeInstanceHealthRequest(d.loadBalancerName)];
        var hOut := env.healthOf(d.loadBalancerName);
        if hOut.Failed? {
          err := Some(hOut.error);
          HealthFailureEndsPage(filter, env, descs, tds, j, found, old_requests);
          return;
        }
        var iStates := ToInstanceStates(hOut.value);
        requests := requests + [DescribeSecurityGroupsRequest(lb.securityGroups)];
        var sgNames, _ := SGNames(env, lb.securityGroups);
        var tagMap := MapTags(d.tags);
        var built := LoadBalancer(
          lb.loadBalancerName, lb.dnsName, lb.scheme, sslCert, instancePort,
          iStates, sgNames, tagMap);
        EnrichAssembles(env, lb, d, hOut.value, built);
        BuiltExtendsPage(filter, env, descs, tds, j, found, old_requests, built);
        found := found + [built];
      } else {
        SkippedAt(filter, env, descs, tds, j);
      }
    }
    assert found + [] == found && requests + [] == requests;
  }

  /** In the loop: a failed health lookup at position j ends the page with what was found before it. */
  lemma HealthFailureEndsPage(filter: map<string, string>, env: Provider, descs: map<string, LoadBalancerDescription>,
                              tds: seq<TagDescription>, j: nat, found: seq<LoadBalancer>, requests: seq<Request>)
    requires MatchesIndexed(filter, descs, tds)
    requires j < |tds| && ContainsTags(filter, tds[j].tags) && env.healthOf(tds[j].loadBalancerName).Failed?
    requires PageMatches(filter, env, descs, tds) == AfterPrefix(found, requests, PageMatches(filter, env, descs, tds[j..]))
    ensures PageMatches(filter, env, descs, tds)
         == PageOutcome(found, Some(env.healthOf(tds[j].loadBalancerName).error),
                        requests + [DescribeInstanceHealthRequest(tds[j].loadBalancerName)])
  {
    HealthFailsAt(filter, env, descs, tds, j);
    AfterPrefixFails(found, requests, DescribeInstanceHealthRequest(tds[j].loadBalancerName),
              env.healthOf(tds[j].loadBalancerName).error);
  }

  /** In the loop: a load balancer assembled at position j moves, with its lookups, into what was found. */
  lemma BuiltExtendsPage(filter: map<string, string>, env: Provider, descs: map<string, LoadBalancerDescription>,
                         tds: seq<TagDescription>, j: nat, found: seq<LoadBalancer>, requests: seq<Request>,
                         built: LoadBalancer)
    requires MatchesIndexed(filter, descs, tds)
    requires j < |tds| && ContainsTags(filter, tds[j].tags)
    requires tds[j].loadBalancerName in descs
    requires Enrich(env, descs[tds[j].loadBalancerName], tds[j]) == Ok(built)
    requires PageMatches(filter, env, descs, tds) == AfterPrefix(found, requests, PageMatches(filter, env, descs, tds[j..]))
    ensures PageMatches(filter, env, descs, tds)
         == AfterPrefix(found + [built],
                 requests + [DescribeInstanceHealthRequest(tds[j].loadBalancerName)]
                          + [DescribeSecurityGroupsRequest(descs[tds[j].loadBalancerName].securityGroups)],
                 PageMatches(filter, env, descs, tds[j + 1..]))
  {
    var h := DescribeInstanceHealthRequest(tds[j].loadBalancerName);
    var g := DescribeSecurityGroupsRequest(descs[tds[j].loadBalancerName].securityGroups);
    BuiltAt(filter, env, descs, tds, j, built);
    AfterPrefixShift(found, requests, built, [h, g], PageMatches(filter, env, descs, tds[j + 1..]));
    assert requests + [h, g] == requests + [h] + [g];
  }

  /** Enrich is the record assembled from the listener, health, security-group and tag lookups. */
  lemma EnrichAssembles(env: Provider, d: LoadBalancerDescription, td: TagDescription,
                        hs: seq<InstanceHealth>, built: LoadBalancer)
    requires env.healthOf(td.loadBalancerName) == Ok(hs)
    requires built == LoadBalancer(d.loadBalancerName, d.dnsName, d.scheme,
                                   LastCertificate(d.listeners), FirstInstancePort(d.listeners),
                                   InstanceStatesOf(hs), SecurityGroupNames(env, d.securityGroups), TagMap(td.tags))
    ensures Enrich(env, d, td) == Ok(built)
  {
  }

  /** A description whose tags miss the filter is passed over. */
  lemma SkippedAt(filter: map<string, string>, env: Provider,
                  descs: map<string, LoadBalancerDescription>, tds: seq<TagDescription>, j: nat)
    requires MatchesIndexed(filter, descs, tds)
    requires j < |tds| && !ContainsTags(filter, tds[j].tags)
    ensures MatchesIndexed(filter, descs, tds[j..])
    ensures MatchesIndexed(filter, descs, tds[j + 1..])
    ensures PageMatches(filter, env, descs, tds[j..]) == PageMatches(filter, env, descs, tds[j + 1..])
  {
    assert tds[j..][0] == tds[j] && tds[j..][1..] == tds[j + 1..];
  }

  /** A matching description whose health lookup fails ends the page with that failure. */
  lemma HealthFailsAt(filter: map<string, string>, env: Provider,
                      descs: map<string, LoadBalancerDescription>, tds: seq<TagDescription>, j: nat)
    requires MatchesIndexed(filter, descs, tds)
    requires j < |tds| && ContainsTags(filter, tds[j].tags) && env.healthOf(tds[j].loadBalancerName).Failed?
    ensures MatchesIndexed(filter, descs, tds[j..])
    ensures PageMatches(filter, env, descs, tds[j..])
         == PageOutcome([], Some(env.healthOf(tds[j].loadBalancerName).error),
                        [DescribeInstanceHealthRequest(tds[j].loadBalancerName)])
  {
    assert tds[j..][0] == tds[j];
  }

  /** A matching description whose health lookup succeeds contributes its enriched load balancer. */
  lemma BuiltAt(filter: map<string, string>, env: Provider,
                descs: map<string, LoadBalancerDescription>, tds: seq<TagDescription>, j: nat, built: LoadBalancer)
    requires MatchesIndexed(filter, descs, tds)
    requires j < |tds| && ContainsTags(filter, tds[j].tags)
    requires tds[j].loadBalancerName in descs
    requires Enrich(env, descs[tds[j].loadBalancerName], tds[j]) == Ok(built)
    ensures MatchesIndexed(filter, descs, tds[j..])
    ensures MatchesIndexed(filter, descs, tds[j + 1..])
    ensures var next := PageMatches(filter, env, descs, tds[j + 1..]);
            PageMatches(filter, env, descs, tds[j..])
              == PageOutcome([built] + next.found, next.err,
                             [DescribeInstanceHealthRequest(tds[j].loadBalancerName),
                              DescribeSecurityGroupsRequest(descs[tds[j].loadBalancerName].securityGroups)]
                             + next.requests)
  {
    assert tds[j..][0] == tds[j] && tds[j..][1..] == tds[j + 1..];
  }

  /** Prefixing a failing outcome keeps what was found and adds the failing lookup to the requests. */
  lemma AfterPrefixFails(found: seq<LoadBalancer>, requests: seq<Request>, q: Request, e: ApiError)
    ensures AfterPrefix(found, requests, PageOutcome([], Some(e), [q])) == PageOutcome(found, Some(e), requests + [q])
  {
    assert found + [] == found;
  }

}
