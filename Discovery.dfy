/**
 ListByTags: pages through every load balancer, looks up the tags of each
 page in one batch, and returns the enriched load balancers whose tags carry
 every pair of the filter. The loop is proved equal to the specification
 function ListFrom; the lemmas below state pagination, result order and the
 error policy in terms of what each scripted page call does (StepAt).
 */
module Discovery {
  import opened Wrappers
  import opened ElbApi
  import opened ElbTags
  import opened ElbUtil

  /** The page size ListByTags asks for; DescribeTags accepts at most 20 names. */
  const PageSize: int := 20

  /** A continuation marker that ends pagination: absent or empty. */
  predicate EndOfPages(marker: Option<string>)
  {
    marker.None? || marker.value == ""
  }

  /** The names of a page's descriptions, in page order. */
  function NamesOf(ds: seq<LoadBalancerDescription>): seq<string>
  {
    seq(|ds|, i requires 0 <= i < |ds| => ds[i].loadBalancerName)
  }

  /** The name-to-description map of one page; a repeated name keeps its last description. */
  function DescriptionIndex(ds: seq<LoadBalancerDescription>): (index: map<string, LoadBalancerDescription>)
    ensures forall n :: n in index <==> n in NamesOf(ds)
    ensures forall n :: n in index ==> index[n].loadBalancerName == n
  {
    if |ds| == 0 then map[]
    else
      var prefix := ds[..|ds| - 1];
      assert NamesOf(ds) == NamesOf(prefix) + [ds[|ds| - 1].loadBalancerName];
      DescriptionIndex(prefix)[ds[|ds| - 1].loadBalancerName := ds[|ds| - 1]]
  }

  /** A description with no later one of the same name is the one the index keeps: the last description of a name wins. */
  lemma {:induction false} DescriptionIndexLastWins(ds: seq<LoadBalancerDescription>, i: nat)
    requires i < |ds|
    requires forall j :: i < j < |ds| ==> ds[j].loadBalancerName != ds[i].loadBalancerName
    ensures ds[i].loadBalancerName in DescriptionIndex(ds)
    ensures DescriptionIndex(ds)[ds[i].loadBalancerName] == ds[i]
    decreases |ds|
  {
    var prefix := ds[..|ds| - 1];
    if i < |ds| - 1 {
      assert prefix[i] == ds[i];
      assert forall j :: i < j < |prefix| ==> prefix[j] == ds[j];
      DescriptionIndexLastWins(prefix, i);
    }
  }

  /** Fills the names slice and the descriptions map of one page. */
  method IndexPage(ds: seq<LoadBalancerDescription>)
    returns (names: seq<string>, descs: map<string, LoadBalancerDescription>)
    ensures names == NamesOf(ds)
    ensures descs == DescriptionIndex(ds)
  {
    var buf := new string[|ds|];
    descs := map[];
    for i := 0 to |ds|
      invariant forall j :: 0 <= j < i ==> buf[j] == ds[j].loadBalancerName
      invariant descs == DescriptionIndex(ds[..i])
    {
      assert ds[..i + 1][..i] == ds[..i];
      buf[i] := ds[i].loadBalancerName;
      descs := descs[ds[i].loadBalancerName := ds[i]];
    }
    names := buf[..];
    assert ds[..|ds|] == ds;
  }

  /** Every tag description of a page's tag response that matches the filter names a load balancer of that page. */
  predicate TagsBelongToPage(filter: map<string, string>, env: Provider, page: Page)
  {
    var names := NamesOf(page.descriptions);
    env.tagsFor(names).Ok? ==>
      forall td :: td in env.tagsFor(names).value && ContainsTags(filter, td.tags) ==> td.loadBalancerName in names
  }

  /** TagsBelongToPage holds for every non-empty page the script returns. */
  predicate TagsBelongToPages(filter: map<string, string>, env: Provider)
  {
    forall k :: 0 <= k < |env.pages| && env.pages[k].Ok? && |env.pages[k].value.descriptions| > 0 ==>
      TagsBelongToPage(filter, env, env.pages[k].value)
  }

  /** The provider never returns more descriptions than the page size asked for. */
  predicate HonoursPageSize(env: Provider)
  {
    forall k :: 0 <= k < |env.pages| && env.pages[k].Ok? ==> |env.pages[k].value.descriptions| <= PageSize
  }

  /** What happens on the `call`-th page request. */
  datatype PageStep =
    | PageFailed(error: ApiError)
    | PageEmpty
    | TagsFailed(names: seq<string>, error: ApiError)
    | Processed(names: seq<string>, descs: map<string, LoadBalancerDescription>,
                tagDescriptions: seq<TagDescription>, outcome: PageOutcome, nextMarker: Option<string>)

  /** What the `call`-th page call does, read off the provider's answers. */
  function StepAt(filter: map<string, string>, env: Provider, call: nat): (s: PageStep)
    requires TagsBelongToPages(filter, env)
    ensures !s.PageFailed? ==> call < |env.pages|
  {
    match DescribeLoadBalancers(env, call)
    case Failed(e) => PageFailed(e)
    case Ok(page) =>
      if |page.descriptions| == 0 then PageEmpty
      else
        var names := NamesOf(page.descriptions);
        match env.tagsFor(names)
        case Failed(e) => TagsFailed(names, e)
        case Ok(tds) =>
          assert TagsBelongToPage(filter, env, env.pages[call].value);
          var descs := DescriptionIndex(page.descriptions);
          Processed(names, descs, tds, PageMatches(filter, env, descs, tds), page.nextMarker)
  }

  /** What each scripted page call does, in call order. */
  function Steps(filter: map<string, string>, env: Provider): (steps: seq<PageStep>)
    requires TagsBelongToPages(filter, env)
    ensures |steps| == |env.pages|
  {
    seq(|env.pages|, k requires 0 <= k < |env.pages| => StepAt(filter, env, k))
  }

  /** The step of the `call`-th page call; past the script the provider fails. */
  function StepIn(steps: seq<PageStep>, call: nat): PageStep
  {
    if call < |steps| then steps[call] else PageFailed(ScriptEnded)
  }

  /** The step sequence answers each call as StepAt does, past the script included. */
  lemma StepsAgree(filter: map<string, string>, env: Provider, call: nat)
    requires TagsBelongToPages(filter, env)
    ensures StepIn(Steps(filter, env), call) == StepAt(filter, env, call)
  {
  }

  /** What ListByTags returns, with the requests it sent. */
  datatype Listing = Listing(lbs: seq<LoadBalancer>, err: Option<ApiError>, requests: seq<Request>)

  /**
   The loop of ListByTags from the `call`-th page request on, over the steps
   of the page calls, with `marker` the marker to send, `acc` the load
   balancers gathered and `tr` the requests sent so far.
   */
  function ListFrom(steps: seq<PageStep>, call: nat, marker: Option<string>,
                    acc: seq<LoadBalancer>, tr: seq<Request>): Listing
    decreases |steps| - call
  {
    var tr1 := tr + [DescribeLoadBalancersRequest(call, marker, PageSize)];
    match StepIn(steps, call)
    case PageFailed(e) => Listing([], Some(e), tr1)
    case PageEmpty => ListFrom(steps, call + 1, marker, acc, tr1)
    case TagsFailed(names, e) => Listing(acc, Some(e), tr1 + [DescribeTagsRequest(names)])
    case Processed(names, _, _, outcome, next) =>
      var tr2 := tr1 + [DescribeTagsRequest(names)] + outcome.requests;
      if outcome.err.Some? then Listing(acc + outcome.found, outcome.err, tr2)
      else if EndOfPages(next) then Listing(acc + outcome.found, None, tr2)
      else ListFrom(steps, call + 1, next, acc + outcome.found, tr2)
  }

  /** What ListByTags returns: the loop from the first call, with no marker, nothing gathered and nothing sent. */
  function ListByTagsSpec(filter: map<string, string>, env: Provider): Listing
    requires TagsBelongToPages(filter, env)
  {
    ListFrom(Steps(filter, env), 0, None, [], [])
  }

  /** ListByTags: the discovery loop over pages, tag batches and matches. */
  method ListByTags(filter: map<string, string>, env: Provider)
    returns (lbs: seq<LoadBalancer>, err: Option<ApiError>, ghost requests: seq<Request>)
    requires TagsBelongToPages(filter, env)
    ensures lbs == ListByTagsSpec(filter, env).lbs
    ensures err == ListByTagsSpec(filter, env).err
    ensures requests == ListByTagsSpec(filter, env).requests
  {
    var nextMarker: Option<string> := None;
    var call: nat := 0;
    lbs, requests := [], [];
    while true
      invariant ListFrom(Steps(filter, env), call, nextMarker, lbs, requests) == ListByTagsSpec(filter, env)
      decreases |env.pages| - call
    {
      StepsAgree(filter, env, call);
      requests := requests + [DescribeLoadBalancersRequest(call, nextMarker, PageSize)];
      var out := DescribeLoadBalancers(env, call);
      if out.Failed? {
        return [], Some(out.error), requests;
      }
      var page := out.value;
      if |page.descriptions| == 0 {
        call := call + 1;
        continue;
      }
      var names, descs := IndexPage(page.descriptions);
      requests := requests + [DescribeTagsRequest(names)];
      var out2 := env.tagsFor(names);
      if out2.Failed? {
        return lbs, Some(out2.error), requests;
      }
      assert TagsBelongToPage(filter, env, env.pages[call].value);
      ghost var asked: seq<Request>;
      var found, pageErr;
      found, pageErr, asked := MatchPage(filter, env, descs, out2.value);
      lbs := lbs + found;
      requests := requests + asked;
      if pageErr.Some? {
        return lbs, pageErr, requests;
      }
      nextMarker := page.nextMarker;
      call := call + 1;
      if EndOfPages(nextMarker) {
        break;
      }
    }
    err := None;
  }
}
