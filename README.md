# Load-balancer discovery (elbutil) in Dafny

This project models the load-balancer discovery of `pkg/awsutil/elbutil/elb.go`.
`ListByTags` pages through every Elastic Load Balancer (ELB) of an account,
20 descriptions at a time, following the continuation marker. For each page it:

- looks up the tags of all the page's load balancers in one batched call;
- keeps the load balancers whose tags carry every key/value pair of the filter;
- enriches each match with its listener fields (instance port, SSL certificate);
- adds its instance health and its security-group names.

It returns the enriched load balancers in page order, then tag-response order,
and has a fixed policy for each kind of failure.

The AWS provider is a value (`ElbApi.Provider`):

- The k-th `DescribeLoadBalancers` request is answered by the k-th entry of a
  finite script of pages. Once the script is used up, every answer is a failure.
- Tag, health and security-group lookups are total functions of what they are
  asked for.
- Every request the code sends is recorded in a ghost request log. This lets
  the proofs state which pages were asked for, with which marker and page
  size, and which names each tag lookup carried.

Modules:

- `Wrappers`: the `Option` type.
- `ElbApi`: the SDK shapes (tags, listeners, descriptions, health, security
  groups, pages), the scripted provider and the request log.
- `ElbTags`: `containsTag`, `containsTags`, `mapTags`, `elbTags` and `elbTag`.
  - `MapTags` and `ElbTags` are loops proved against the reference function
    `TagMap`.
  - The containment predicates are pure functions with iff lemmas.
- `ElbUtil`: the `LoadBalancer` and `InstanceState` records and the listener
  scan. It also holds the instance-state copy, `stringSlice`, `SGNames`, and the
  inner loop over one page's tag descriptions (`MatchPage`). That loop is
  proved equal to the reference function `PageMatches`, and `PageMatches` is
  characterised as "enrich the kept descriptions up to the first health
  failure".
- `Discovery`: `ListByTags`, a `while` loop over page calls. It is proved
  equal to the reference function `ListFrom`, run over the steps (`StepAt`)
  that each scripted page call produces.
- `DiscoveryProperties`: what `ListFrom` guarantees:
  - pagination and markers;
  - the whole request log, call by call;
  - tag batches;
  - result order and content;
  - the error policy;
  - soundness of every result;
  - the behaviour on a script of empty pages.

## Model

| member | source | states |
|---|---|---|
| ElbTags.ElbTag | pkg/awsutil/elbutil/elb.go:184-189 | the tag carries exactly the given key and value |
| ElbTags.ContainsTag | pkg/awsutil/elbutil/elb.go:202-209 | the search succeeds exactly when a tag equal to the searched one (same key, same value) is in the list |
| ElbTags.ContainsTagIff | pkg/awsutil/elbutil/elb.go:202-209 | containsTag succeeds exactly when some position of the list holds a tag with the same key and the same value (exact string equality of both); the position does not matter |
| ElbTags.ContainsTags | pkg/awsutil/elbutil/elb.go:191-200 | an empty filter matches any tag list, the empty list included |
| ElbTags.ContainsTagsIff | pkg/awsutil/elbutil/elb.go:191-200 | containsTags(a, b) holds exactly when every pair (k, v) of a occurs verbatim as some tag of b (both directions) |
| ElbTags.ContainsTagsIgnoresOrder | pkg/awsutil/elbutil/elb.go:191-209 | containment gives the same answer for any reordering (same multiset) of the tag list |
| ElbTags.ContainsTagsIffSubmap | pkg/awsutil/elbutil/elb.go:191-209 | on a tag list without repeated keys, containment holds exactly when the filter is a sub-map of mapTags of the list |
| ElbTags.RepeatedKeyMasksFilter | pkg/awsutil/elbutil/elb.go:163-209 | with a repeated key, a list can satisfy a filter by an earlier tag while mapTags keeps a different, later value for that key |
| ElbTags.TagMapKeys | pkg/awsutil/elbutil/elb.go:163-171 | the keys of the map are exactly the keys occurring in the tag list |
| ElbTags.TagMapLastWins | pkg/awsutil/elbutil/elb.go:163-171 | a tag whose key does not occur later in the list gives the map its value: the last occurrence of a key wins |
| ElbTags.TagMapOfDistinct | pkg/awsutil/elbutil/elb.go:163-171 | with distinct keys every tag of the list appears in the map unchanged |
| ElbTags.MapTags | pkg/awsutil/elbutil/elb.go:164-171 | the insertion loop of mapTags builds the reference map TagMap of the list |
| ElbTags.TagMapOfListing | pkg/awsutil/elbutil/elb.go:163-189 | a list that holds every pair of a map once, and nothing else, converts back to that map |
| ElbTags.ElbTags | pkg/awsutil/elbutil/elb.go:173-189 | elbTags lists one tag per key of the map, no key twice, each with the map's value, and mapTags(elbTags(m)) == m |
| ElbUtil.LastCertificateWins | pkg/awsutil/elbutil/elb.go:96-100 | a listener with a certificate and no certificate after it decides SSLCert |
| ElbUtil.NoCertificateIsEmpty | pkg/awsutil/elbutil/elb.go:91-101 | without any listener certificate SSLCert stays "" |
| ElbUtil.DeriveListener | pkg/awsutil/elbutil/elb.go:91-101 | the listener scan yields the first listener's instance port (0 with no listener) and the certificate of the last listener that has one |
| ElbUtil.ToInstanceStates | pkg/awsutil/elbutil/elb.go:111-119 | one instance state per reported instance, in the reported order, with the four fields copied one to one |
| ElbUtil.StringSlice | pkg/awsutil/elbutil/elb.go:211-217 | stringSlice keeps length and order and dereferences every element |
| ElbUtil.SGNames | pkg/awsutil/elbutil/elb.go:146-161 | one batched lookup: on failure the error and no names; on success the group names in the order the provider returned the groups |
| ElbUtil.SecurityGroupFailureIsSwallowed | pkg/awsutil/elbutil/elb.go:121-132 | a failed security-group lookup does not stop the load balancer from being assembled; it gets an empty name list |
| ElbUtil.Enrich | pkg/awsutil/elbutil/elb.go:103-132 | a matched load balancer fails exactly when its health lookup fails, with that error; otherwise it carries the description's name, DNS name and scheme, the first listener's port and the last certificate, one instance state per reported instance with the four fields copied in order, the names SGNames yields, and mapTags of its tags |
| ElbUtil.PageMatches | pkg/awsutil/elbutil/elb.go:88-133 | matching one page sends only health and security-group lookups, never a page request or a tag lookup; which ones, and in what order, PageMatchesByFilter states |
| ElbUtil.Kept | pkg/awsutil/elbutil/elb.go:88-89 | a description is kept exactly when it is in the tag response and its tags contain the filter; no more are kept than were returned |
| ElbUtil.HealthyPrefix | pkg/awsutil/elbutil/elb.go:104-109 | the leading kept descriptions whose health lookup succeeds, up to the first that fails |
| ElbUtil.PageMatchesByFilter | pkg/awsutil/elbutil/elb.go:87-134 | a page yields the enriched kept descriptions in tag-response order, up to the first whose health lookup fails, and that failure as its error; its lookups are exactly Lookups of the kept descriptions: one health lookup per kept description up to and including the first failing one, and one security-group lookup with its group ids after each successful one |
| ElbUtil.LookupsIndexed | pkg/awsutil/elbutil/elb.go:104-121 | position by position: the i-th assembled description's health lookup (by name) is at 2i and its security-group lookup (with its ids) at 2i+1; the failing health lookup, if any, comes last, and there is nothing else |
| ElbUtil.MatchPage | pkg/awsutil/elbutil/elb.go:87-134 | the inner loop over a page's tag descriptions returns exactly PageMatches: found load balancers, health error and lookups sent |
| Discovery.DescriptionIndex | pkg/awsutil/elbutil/elb.go:72-79 | the descriptions map has exactly the page's names as keys, and each maps to a description of that name; which one, DescriptionIndexLastWins states |
| Discovery.DescriptionIndexLastWins | pkg/awsutil/elbutil/elb.go:73-79 | a description with no later description of the same name on the page is the one the map holds for that name: a repeated name keeps its last description |
| Discovery.IndexPage | pkg/awsutil/elbutil/elb.go:72-79 | the names slice lists the page's names in order, and the map is the page's name index |
| Discovery.ListByTags | pkg/awsutil/elbutil/elb.go:52-144 | the discovery loop returns exactly ListFrom over the steps of the scripted page calls: results, error and request log |
| DiscoveryProperties.StopCall | pkg/awsutil/elbutil/elb.go:136-140 | the page call the loop stops after is the first at or after the start that does not let it go on |
| DiscoveryProperties.ContinuesUntilStop | pkg/awsutil/elbutil/elb.go:59-141 | every page call before the stopping one lets the loop go on |
| DiscoveryProperties.ListFromError | pkg/awsutil/elbutil/elb.go:59-143 | the loop ends with the failure, if any, of the page call it stops after |
| DiscoveryProperties.ListFromGathers | pkg/awsutil/elbutil/elb.go:59-143 | the loop returns the contributions of all page calls up to the stopping one, unless that call's page request failed |
| DiscoveryProperties.ListFromRequests | pkg/awsutil/elbutil/elb.go:59-82 | the log holds the page requests of calls 0 to the stopping call in order, each with its marker, and each tag lookup right after its page request |
| DiscoveryProperties.MarkersFollowPages | pkg/awsutil/elbutil/elb.go:68-70 | the marker each page request carries is the last non-empty page's marker; an empty page leaves the marker as it was |
| DiscoveryProperties.NamesFollowPages | pkg/awsutil/elbutil/elb.go:64-82 | a page call makes a tag lookup exactly when its page came back non-empty, and the lookup carries exactly that page's names |
| DiscoveryProperties.ListFromLooksUp | pkg/awsutil/elbutil/elb.go:59-82 | every page call up to the stopping one that received names has its tag lookup in the log, right after its page request |
| DiscoveryProperties.ListFromLog | pkg/awsutil/elbutil/elb.go:59-141 | started on the log of the earlier calls, the loop's log is the requests of every call up to the stopping one, in call order, and nothing else |
| DiscoveryProperties.PageRequestsOfStep | pkg/awsutil/elbutil/elb.go:60-121 | what one page call sends is, in order: the page request; for a non-empty page, the lookup of its names; when that succeeds, one health lookup per description kept by the filter up to and including the first that fails, each successful one followed by its security-group lookup |
| DiscoveryProperties.SegmentsFollowPages | pkg/awsutil/elbutil/elb.go:59-141 | through the last call the loop makes, what each call sends, read off the scripted steps, equals what the provider's pages call for, the marker each page request carries included |
| DiscoveryProperties.ListByTagsPagination | pkg/awsutil/elbutil/elb.go:59-141 | pages 0 to the last call are requested in order and no others; the loop goes on exactly after an empty page or a fully matched page with a non-empty marker; every request carries page size 20 and the marker the pages call for; every tag lookup follows its page request with exactly that page's names, and every non-empty page up to the last call gets that tag lookup |
| DiscoveryProperties.ListByTagsLog | pkg/awsutil/elbutil/elb.go:52-144 | the whole request log is PageLog: the requests of page calls 0 to the last, one call after another, each call's page request, tag lookup, health and security-group lookups before the next page request, and nothing else |
| DiscoveryProperties.ListByTagsOutcome | pkg/awsutil/elbutil/elb.go:59-143 | results are the per-page contributions concatenated in page order (nothing when the last page request failed); the error is the last call's failure, and it is absent exactly when a complete page ended pagination with a nil or empty marker |
| DiscoveryProperties.ListByTagsFailurePolicy | pkg/awsutil/elbutil/elb.go:64-109 | a failed page request returns no results and its error; a failed tag lookup returns what earlier pages gathered; a failed health lookup returns that plus the matches assembled earlier on the same page |
| DiscoveryProperties.TagBatchesWithinPageSize | pkg/awsutil/elbutil/elb.go:56-82 | when the provider honours the page size, every tag lookup carries between 1 and 20 names |
| DiscoveryProperties.EmptyPagesNeverEnd | pkg/awsutil/elbutil/elb.go:68-70 | on a script of empty pages every page is requested, always with no marker, and only the provider's failure ends the loop |
| DiscoveryProperties.FoundAreMatches | pkg/awsutil/elbutil/elb.go:87-133 | every load balancer a page contributes comes from one of its tag descriptions whose tags contain the filter, whose name is on that page and whose health lookup succeeded |
| DiscoveryProperties.GatheredAreMatches | pkg/awsutil/elbutil/elb.go:87-133 | every load balancer of the first n pages' contributions is such a match on one of those pages |
| DiscoveryProperties.ListByTagsSound | pkg/awsutil/elbutil/elb.go:52-144 | every returned load balancer is the Enrich of a matching tag description on a requested page; its Tags is mapTags of that description's tags |
| DiscoveryProperties.ForeignNonMatchingIsSkipped | pkg/awsutil/elbutil/elb.go:88-90 | a tag description naming no load balancer of its page is admitted when it does not match the filter, and skipped: a one-page script holding only such a description returns no load balancers and no error |

## Left out

- The AWS SDK clients and their network calls (`DescribeLoadBalancers`, `DescribeTags`, `DescribeInstanceHealth`, `DescribeSecurityGroups`) are replaced by the scripted provider. The request log is ghost.
- `New`, the `Client` struct and credentials are plumbing and are not modelled.
- `cmd/empctl/elbs.go` and `cmd/empctl/main.go` (CLI flags, printing, colouring) are not part of this model.
- ListByTags: requires `TagsBelongToPages`: a tag description that matches the filter must name a load balancer of its page. Otherwise the lookup at elb.go:90 yields nil, and Go dereferences it at elb.go:94. A tag description that does not match is skipped, whatever name it carries, as in Go.
- StringSlice: requires every pointer to be non-nil. The Go code panics otherwise.
- Other nil SDK fields (`*s.ReasonCode`, `*lb.DNSName`, …) are modelled as always present.
- ListByTags: termination comes from the finite script: past its end the provider fails. On a real provider an empty page, whatever its marker, loops forever when the provider keeps returning it: the `continue` at elb.go:68-70 skips the marker update at elb.go:136, so the next request repeats the same marker. The model claims no termination for that case; `EmptyPagesNeverEnd` states that such pages never end the loop by themselves.
- ElbTags: Go's map iteration order is unspecified. The loop picks each next key by `:|`, so the contracts state the content of the list and not its order.
- `InstancePort` is an `int64` in Go and an unbounded `int` here. The value is copied, never computed, so no wrap-around is involved.
- A failed page request returns Go's `nil` slice; here that is the empty sequence.
- Behaviour of the code that a reader might not expect, kept by the model:
  - A failed security-group lookup is discarded (elb.go:121). The load balancer is kept with no names, and the error is not returned.
  - `SGNames` is called for every match, even one without security groups.
  - Tag lookups are never sub-batched. A page of more than 20 descriptions goes to one lookup, and `TagBatchesWithinPageSize` needs `HonoursPageSize`.
  - SSLCert comes from the last listener whose certificate pointer is non-nil. A later empty-string certificate overrides an earlier one.
