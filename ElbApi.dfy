/**
 The parts of the AWS Elastic Load Balancing and EC2 APIs that load-balancer
 discovery talks to. The network provider is replaced by a finite script of
 responses: the k-th page request is answered by `pages[k]` (and, once the
 script is used up, by a failure), while tag, health and security-group
 lookups are answered as functions of what they are asked for.
 */
module ElbApi {
  import opened Wrappers

  /** A key/value tag attached to a load balancer (elb.Tag). */
  datatype Tag = Tag(key: string, value: string)

  /** One listener of a load balancer; the certificate is optional (a nil pointer in the SDK). */
  datatype Listener = Listener(instancePort: int, sslCertificateId: Option<string>)

  datatype LoadBalancerDescription = LoadBalancerDescription(
    loadBalancerName: string,
    dnsName: string,
    scheme: string,
    listeners: seq<Listener>,
    securityGroups: seq<string>)

  /** The tags of one named load balancer, as DescribeTags returns them. */
  datatype TagDescription = TagDescription(loadBalancerName: string, tags: seq<Tag>)

  /** One backend instance's health, as DescribeInstanceHealth returns it. */
  datatype InstanceHealth = InstanceHealth(instanceId: string, reasonCode: string, state: string, description: string)

  datatype SecurityGroup = SecurityGroup(groupId: string, groupName: string)

  /** One page of DescribeLoadBalancers: descriptions plus the continuation marker. */
  datatype Page = Page(descriptions: seq<LoadBalancerDescription>, nextMarker: Option<string>)

  /** A transport error of any kind; the discovery code never looks inside it. */
  datatype ApiError = ApiError(message: string)

  datatype Response<T> = Ok(value: T) | Failed(error: ApiError)

  datatype Provider = Provider(
    pages: seq<Response<Page>>,
    tagsFor: seq<string> -> Response<seq<TagDescription>>,
    healthOf: string -> Response<seq<InstanceHealth>>,
    groupsOf: seq<string> -> Response<seq<SecurityGroup>>)

  /** The failure the provider answers with once its script of pages is used up. */
  const ScriptEnded := ApiError("no further scripted response")

  /** The answer to the `call`-th DescribeLoadBalancers request. */
  function DescribeLoadBalancers(p: Provider, call: nat): (r: Response<Page>)
    ensures r.Ok? ==> call < |p.pages| && r == p.pages[call]
    ensures call >= |p.pages| ==> r == Failed(ScriptEnded)
  {
    if call < |p.pages| then p.pages[call] else Failed(ScriptEnded)
  }

  /** A request sent to the provider; `call` says which scripted page answers it. */
  datatype Request =
    | DescribeLoadBalancersRequest(call: nat, marker: Option<string>, pageSize: int)
    | DescribeTagsRequest(names: seq<string>)
    | DescribeInstanceHealthRequest(name: string)
    | DescribeSecurityGroupsRequest(groupIds: seq<string>)
}
