/**
 The tag helpers of the load-balancer utilities: converting between a tag
 list and a key/value map, and testing whether a tag list carries every
 pair of a filter.
 */
module ElbTags {
  import opened ElbApi

  /** No key occurs twice in the list. */
  predicate DistinctKeys(tags: seq<Tag>)
  {
    forall i, j :: 0 <= i < j < |tags| ==> tags[i].key != tags[j].key
  }

  /** Builds one tag from a key and a value. */
  function ElbTag(k: string, v: string): (t: Tag)
    ensures t.key == k && t.value == v
  {
    Tag(k, v)
  }

  /** Linear search of `tags` for a tag equal to `t` in both key and value. */
  function ContainsTag(t: Tag, tags: seq<Tag>): (found: bool)
    ensures found <==> t in tags
  {
    if |tags| == 0 then false
    else if tags[0].key == t.key && tags[0].value == t.value then true
    else ContainsTag(t, tags[1..])
  }

  /** The search succeeds exactly when some position holds the same key and the same value. */
  lemma {:induction false} ContainsTagIff(t: Tag, tags: seq<Tag>)
    ensures ContainsTag(t, tags) <==> exists i :: 0 <= i < |tags| && tags[i].key == t.key && tags[i].value == t.value
  {
    if |tags| > 0 && !(tags[0].key == t.key && tags[0].value == t.value) {
      ContainsTagIff(t, tags[1..]);
      if i :| 0 <= i < |tags| && tags[i].key == t.key && tags[i].value == t.value {
        assert tags[1..][i - 1] == tags[i];
      }
    }
  }

  /** True when `b` carries every key/value pair of the filter `a`. */
  function ContainsTags(a: map<string, string>, b: seq<Tag>): (all: bool)
    ensures |a| == 0 ==> all
  {
    forall k | k in a :: ContainsTag(ElbTag(k, a[k]), b)
  }

  /** Containment holds exactly when every filter pair occurs verbatim somewhere in the list. */
  lemma ContainsTagsIff(a: map<string, string>, b: seq<Tag>)
    ensures ContainsTags(a, b) <==> forall k :: k in a ==> exists i :: 0 <= i < |b| && b[i].key == k && b[i].value == a[k]
  {
    forall k | k in a {
      ContainsTagIff(ElbTag(k, a[k]), b);
    }
  }

  /** The map that inserting the tags one after another produces: the last occurrence of a key wins. */
  function TagMap(tags: seq<Tag>): (m: map<string, string>)
  {
    if |tags| == 0 then map[]
    else TagMap(tags[..|tags| - 1])[tags[|tags| - 1].key := tags[|tags| - 1].value]
  }

  /** The keys of the map are exactly the keys that occur in the list. */
  lemma {:induction false} TagMapKeys(tags: seq<Tag>)
    ensures forall k :: k in TagMap(tags) <==> exists i :: 0 <= i < |tags| && tags[i].key == k
  {
    if |tags| > 0 {
      var prefix := tags[..|tags| - 1];
      TagMapKeys(prefix);
      assert forall i :: 0 <= i < |prefix| ==> prefix[i] == tags[i];
    }
  }

  /** A tag whose key does not occur later in the list gives the map its value. */
  lemma {:induction false} TagMapLastWins(tags: seq<Tag>, i: nat)
    requires i < |tags|
    requires forall j :: i < j < |tags| ==> tags[j].key != tags[i].key
    ensures tags[i].key in TagMap(tags) && TagMap(tags)[tags[i].key] == tags[i].value
  {
    if i < |tags| - 1 {
      var prefix := tags[..|tags| - 1];
      assert prefix[i] == tags[i];
      TagMapLastWins(prefix, i);
    }
  }

  /** With distinct keys, every tag of the list is in the map unchanged. */
  lemma TagMapOfDistinct(tags: seq<Tag>)
    requires DistinctKeys(tags)
    ensures forall i :: 0 <= i < |tags| ==> tags[i].key in TagMap(tags) && TagMap(tags)[tags[i].key] == tags[i].value
  {
    forall i | 0 <= i < |tags|
      ensures tags[i].key in TagMap(tags) && TagMap(tags)[tags[i].key] == tags[i].value
    {
      TagMapLastWins(tags, i);
    }
  }

  /** mapTags: inserts every tag into a fresh map, in list order. */
  method MapTags(tags: seq<Tag>) returns (tagMap: map<string, string>)
    ensures tagMap == TagMap(tags)
  {
    tagMap := map[];
    for i := 0 to |tags|
      invariant tagMap == TagMap(tags[..i])
    {
      assert tags[..i + 1][..i] == tags[..i];
      tagMap := tagMap[tags[i].key := tags[i].value];
    }
    assert tags[..|tags|] == tags;
  }

  /** A listing of a map's pairs with no key repeated converts back to that map. */
  lemma TagMapOfListing(e: seq<Tag>, m: map<string, string>)
    requires DistinctKeys(e)
    requires forall i :: 0 <= i < |e| ==> e[i].key in m && e[i].value == m[e[i].key]
    requires forall k :: k in m ==> Tag(k, m[k]) in e
    ensures TagMap(e) == m
  {
    TagMapWithin(e, m);
    TagMapCovers(e, m);
    assert TagMap(e).Keys == m.Keys;
  }

  /** Every key of the map of a listing is a key of `m`, with m's value. */
  lemma TagMapWithin(e: seq<Tag>, m: map<string, string>)
    requires DistinctKeys(e)
    requires forall i :: 0 <= i < |e| ==> e[i].key in m && e[i].value == m[e[i].key]
    ensures forall k :: k in TagMap(e) ==> k in m && TagMap(e)[k] == m[k]
  {
    var tm := TagMap(e);
    TagMapKeys(e);
    forall k | k in tm
      ensures k in m && tm[k] == m[k]
    {
      var i :| 0 <= i < |e| && e[i].key == k;
      TagMapLastWins(e, i);
    }
  }

  /** Every key of `m` whose pair is listed is a key of the listing's map. */
  lemma TagMapCovers(e: seq<Tag>, m: map<string, string>)
    requires forall k :: k in m ==> Tag(k, m[k]) in e
    ensures forall k :: k in m ==> k in TagMap(e)
  {
    TagMapKeys(e);
    forall k | k in m
      ensures k in TagMap(e)
    {
      var i :| 0 <= i < |e| && e[i] == Tag(k, m[k]);
      assert e[i].key == k;
    }
  }

  /** elbTags: lists every pair of the map as a tag, in the map's (unspecified) iteration order. */
  method ElbTags(tags: map<string, string>) returns (e: seq<Tag>)
    ensures |e| == |tags|
    ensures DistinctKeys(e)
    ensures TagMap(e) == tags
  {
    e := [];
    var rest := tags.Keys;
    ListsNone(tags);
    while rest != {}
      invariant rest <= tags.Keys
      invariant Lists(e, tags, tags.Keys - rest)
      decreases rest
    {
      var k :| k in rest;
      ListsOneMore(e, tags, rest, k);
      e := e + [ElbTag(k, tags[k])];
      rest := rest - {k};
    }
    ListsAll(e, tags);
  }

  /** Nothing is listed before the loop starts. */
  lemma ListsNone(tags: map<string, string>)
    ensures Lists([], tags, tags.Keys - tags.Keys)
  {
    assert tags.Keys - tags.Keys == {};
  }

  /** A list of every key of the map, with no key repeated, converts back to the map. */
  lemma ListsAll(e: seq<Tag>, tags: map<string, string>)
    requires Lists(e, tags, tags.Keys - {})
    ensures |e| == |tags|
    ensures DistinctKeys(e)
    ensures TagMap(e) == tags
  {
    assert tags.Keys - {} == tags.Keys;
    assert |tags.Keys| == |tags|;
    TagMapOfListing(e, tags);
  }

  /** `e` lists the pairs of `tags` whose keys are in `done`, each exactly once. */
  predicate Lists(e: seq<Tag>, tags: map<string, string>, done: set<string>)
  {
    && |e| == |done|
    && DistinctKeys(e)
    && (forall i :: 0 <= i < |e| ==> e[i].key in done && e[i].key in tags && e[i].value == tags[e[i].key])
    && (forall k :: k in done && k in tags ==> Tag(k, tags[k]) in e)
  }

  /** Appending the tag of one more key keeps the list a listing of the keys done. */
  lemma ListsOneMore(e: seq<Tag>, tags: map<string, string>, rest: set<string>, k: string)
    requires rest <= tags.Keys && Lists(e, tags, tags.Keys - rest)
    requires k in rest
    ensures Lists(e + [Tag(k, tags[k])], tags, tags.Keys - (rest - {k}))
  {
    var done := tags.Keys - rest;
    assert tags.Keys - (rest - {k}) == done + {k};
    var e' := e + [Tag(k, tags[k])];
    forall i | 0 <= i < |e'|
      ensures e'[i].key in done + {k} && e'[i].key in tags && e'[i].value == tags[e'[i].key]
    {
      if i < |e| {
        assert e'[i] == e[i];
      }
    }
    forall k' | k' in done + {k} && k' in tags
      ensures Tag(k', tags[k']) in e'
    {
      if k' != k {
        assert Tag(k', tags[k']) in e;
      }
    }
  }

  /** When the list has distinct keys, containment of a filter is exactly "the filter is a sub-map of the tag map". */
  lemma ContainsTagsIffSubmap(a: map<string, string>, b: seq<Tag>)
    requires DistinctKeys(b)
    ensures ContainsTags(a, b) <==> forall k :: k in a ==> k in TagMap(b) && TagMap(b)[k] == a[k]
  {
    ContainsTagsIff(a, b);
    TagMapOfDistinct(b);
    TagMapKeys(b);
  }

  /** Containment does not depend on the order of the tag list. */
  lemma ContainsTagsIgnoresOrder(a: map<string, string>, b: seq<Tag>, b': seq<Tag>)
    requires multiset(b) == multiset(b')
    ensures ContainsTags(a, b) == ContainsTags(a, b')
  {
    ContainsTagsIff(a, b);
    ContainsTagsIff(a, b');
    forall k | k in a
      ensures (exists i :: 0 <= i < |b| && b[i].key == k && b[i].value == a[k])
          ==> (exists i :: 0 <= i < |b'| && b'[i].key == k && b'[i].value == a[k])
    {
      if i :| 0 <= i < |b| && b[i].key == k && b[i].value == a[k] {
        assert b[i] in multiset(b');
        var j :| 0 <= j < |b'| && b'[j] == b[i];
      }
    }
    forall k | k in a
      ensures (exists i :: 0 <= i < |b'| && b'[i].key == k && b'[i].value == a[k])
          ==> (exists i :: 0 <= i < |b| && b[i].key == k && b[i].value == a[k])
    {
      if i :| 0 <= i < |b'| && b'[i].key == k && b'[i].value == a[k] {
        assert b'[i] in multiset(b);
        var j :| 0 <= j < |b| && b[j] == b'[i];
      }
    }
  }

  /** With a repeated key, a list can match a filter while its map carries another value for that key. */
  lemma RepeatedKeyMasksFilter()
    ensures var b := [Tag("App", "api"), Tag("App", "web")];
            ContainsTags(map["App" := "api"], b) && TagMap(b)["App"] == "web"
  {
    var b := [Tag("App", "api"), Tag("App", "web")];
    assert ContainsTag(Tag("App", "api"), b);
    TagMapLastWins(b, 1);
  }
}
