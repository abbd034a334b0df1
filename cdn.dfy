/**
 * CDN failover candidates: a resource URL served by one of the three
 * private CDN nodes can also be fetched from the other two by rewriting
 * the host name.
 */
module Cdn {
  import opened Strings
  import opened Wrappers

  /** The CDN nodes, in the order alternatives are tried. */
  const CdnNodes: seq<string> := [
    "r1-ndr-private.ykt.cbern.com.cn",
    "r2-ndr-private.ykt.cbern.com.cn",
    "r3-ndr-private.ykt.cbern.com.cn"
  ]

  /** `extract_cdn_node`'s answer when no node name occurs in the URL. */
  const Unknown := "unknown"

  /** Some node name starts at index `i` (the regex `r[1-3]-ndr-private\.ykt\.cbern\.com\.cn` matches there). */
  predicate NodeOccursAt(url: string, i: int)
  {
    OccursAt(url, CdnNodes[0], i) || OccursAt(url, CdnNodes[1], i) || OccursAt(url, CdnNodes[2], i)
  }

  /** The first index at or after `from` where a node name starts, as `re.search` finds it. */
  function FirstNode(url: string, from: nat): (r: Option<nat>)
    ensures r.Some? ==> from <= r.value < |url| && NodeOccursAt(url, r.value)
    ensures r.Some? ==> forall j :: from <= j < r.value ==> !NodeOccursAt(url, j)
    ensures r.None? ==> forall j :: from <= j ==> !NodeOccursAt(url, j)
    decreases |url| - from
  {
    if from >= |url| then None
    else if NodeOccursAt(url, from) then Some(from)
    else FirstNode(url, from + 1)
  }

  /** The node whose name starts at `i`. */
  function NodeAt(url: string, i: int): (n: string)
    requires NodeOccursAt(url, i)
    ensures n in CdnNodes && OccursAt(url, n, i)
  {
    if OccursAt(url, CdnNodes[0], i) then CdnNodes[0]
    else if OccursAt(url, CdnNodes[1], i) then CdnNodes[1]
    else CdnNodes[2]
  }

  /** `extract_cdn_node(url)`: the leftmost node name in the URL, or `"unknown"`. */
  function ExtractCdnNode(url: string): (r: string)
    ensures r == Unknown || r in CdnNodes
  {
    match FirstNode(url, 0)
    case None => Unknown
    case Some(i) => NodeAt(url, i)
  }

  /** `any(cdn in original_url for cdn in self.cdn_nodes)` */
  predicate AnyNodeIn(url: string)
  {
    Contains(url, CdnNodes[0]) || Contains(url, CdnNodes[1]) || Contains(url, CdnNodes[2])
  }

  /** The alternatives generated for the nodes of `nodes`, in order. */
  function Alternatives(url: string, current: string, nodes: seq<string>): seq<string>
  {
    if nodes == [] then []
    else
      var last := nodes[|nodes| - 1];
      Alternatives(url, current, nodes[..|nodes| - 1])
      + (if last != current && current != Unknown then [Replace(url, current, last)] else [])
  }

  /** The list `generate_cdn_urls` returns. */
  function CdnCandidates(url: string): (r: seq<string>)
    ensures r != [] && r[0] == url
  {
    if !AnyNodeIn(url) then [url] else [url] + Alternatives(url, ExtractCdnNode(url), CdnNodes)
  }

  /** `generate_cdn_urls(original_url)` */
  method GenerateCdnUrls(originalUrl: string) returns (urls: seq<string>)
    ensures urls == CdnCandidates(originalUrl)
  {
    if !AnyNodeIn(originalUrl) {
      return [originalUrl];
    }
    urls := [originalUrl];
    var current := ExtractCdnNode(originalUrl);
    for i := 0 to |CdnNodes|
      invariant urls == [originalUrl] + Alternatives(originalUrl, current, CdnNodes[..i])
    {
      var node := CdnNodes[i];
      AlternativesStep(originalUrl, current, i);
      if node != current && current != Unknown {
        urls := urls + [Replace(originalUrl, current, node)];
      }
    }
    assert CdnNodes[..|CdnNodes|] == CdnNodes;
  }

  lemma AlternativesStep(url: string, current: string, i: nat)
    requires i < |CdnNodes|
    ensures Alternatives(url, current, CdnNodes[..i + 1])
            == Alternatives(url, current, CdnNodes[..i])
               + (if CdnNodes[i] != current && current != Unknown then [Replace(url, current, CdnNodes[i])] else [])
  {
    assert CdnNodes[..i + 1][..i] == CdnNodes[..i];
  }

  /** A node name is found exactly when one occurs in the URL. */
  lemma AnyNodeInIff(url: string)
    ensures AnyNodeIn(url) <==> ExtractCdnNode(url) != Unknown
  {
    var f := FirstNode(url, 0);
    if f.None? {
      forall k | 0 <= k < 3 ensures !Contains(url, CdnNodes[k]) {
        ContainsIff(url, CdnNodes[k]);
        forall j ensures !OccursAt(url, CdnNodes[k], j) {
          if j >= 0 {
            assert !NodeOccursAt(url, j);
          }
        }
      }
    } else {
      var n := NodeAt(url, f.value);
      ContainsIff(url, n);
      assert n != Unknown;
    }
  }

  /** A URL that names no CDN node is its only candidate. */
  lemma CandidatesWithoutNode(url: string)
    requires forall n :: n in CdnNodes ==> !Contains(url, n)
    ensures CdnCandidates(url) == [url]
  {
  }

  /** The node names differ in their second character. */
  lemma NodeDigits()
    ensures CdnNodes[0][1] == '1' && CdnNodes[1][1] == '2' && CdnNodes[2][1] == '3'
    ensures forall a, b :: 0 <= a < b < |CdnNodes| ==> CdnNodes[a] != CdnNodes[b]
  {
    assert CdnNodes[0][1] == '1' && CdnNodes[1][1] == '2' && CdnNodes[2][1] == '3';
  }

  /** The nodes other than the `k`-th, in their order. */
  function OtherNodes(k: nat): seq<string>
    requires k < |CdnNodes|
  {
    CdnNodes[..k] + CdnNodes[k + 1..]
  }

  /** The alternatives for the `k`-th node are the URL rewritten to each other node. */
  lemma AlternativesOfNode(url: string, k: nat)
    requires k < |CdnNodes|
    ensures var others := OtherNodes(k);
            Alternatives(url, CdnNodes[k], CdnNodes)
            == [Replace(url, CdnNodes[k], others[0]), Replace(url, CdnNodes[k], others[1])]
  {
    var cur := CdnNodes[k];
    NodeDigits();
    assert CdnNodes[..0] == [];
    assert CdnNodes[..1][..0] == CdnNodes[..0];
    assert CdnNodes[..2][..1] == CdnNodes[..1];
    assert CdnNodes[..3][..2] == CdnNodes[..2];
    assert CdnNodes[..3] == CdnNodes;
    assert |cur| != |Unknown|;
    assert CdnNodes[..1] == [CdnNodes[0]] && CdnNodes[..2][1] == CdnNodes[1];
    var a1 := Alternatives(url, cur, CdnNodes[..1]);
    assert Alternatives(url, cur, CdnNodes[..1][..0]) == [];
    assert CdnNodes[..1][0] == CdnNodes[0];
    assert k != 0 ==> cur != CdnNodes[0];
    var a2 := Alternatives(url, cur, CdnNodes[..2]);
    assert a1 == (if k != 0 then [Replace(url, cur, CdnNodes[0])] else []);
    assert a2 == a1 + (if k != 1 then [Replace(url, cur, CdnNodes[1])] else []);
  }

  /** Replacing the leftmost node name by the node `n` puts the digit of `n` at index `i + 1`. */
  lemma ReplacedDigit(url: string, i: nat, n: string)
    requires NodeOccursAt(url, i) && forall j :: 0 <= j < i ==> !NodeOccursAt(url, j)
    requires n in CdnNodes
    ensures var r := Replace(url, NodeAt(url, i), n); i + 1 < |r| && r[i + 1] == n[1]
  {
    var cur := NodeAt(url, i);
    assert cur == CdnNodes[0] || cur == CdnNodes[1] || cur == CdnNodes[2];
    forall j | 0 <= j < i ensures !OccursAt(url, cur, j) {
      assert !NodeOccursAt(url, j);
    }
    ReplaceAtLeftmost(url, cur, n, i);
  }

  /** The other nodes of the `k`-th are nodes, and the three have distinct digits. */
  lemma OtherNodesDigits(k: nat)
    requires k < |CdnNodes|
    ensures var o := OtherNodes(k);
            |o| == 2 && o[0] in CdnNodes && o[1] in CdnNodes
            && o[0][1] != CdnNodes[k][1] && o[1][1] != CdnNodes[k][1] && o[0][1] != o[1][1]
  {
    NodeDigits();
    var o := OtherNodes(k);
    if k == 0 {
      assert o == [CdnNodes[1], CdnNodes[2]];
    } else if k == 1 {
      assert o == [CdnNodes[0], CdnNodes[2]];
    } else {
      assert o == [CdnNodes[0], CdnNodes[1]];
    }
  }

  /** Three strings with pairwise distinct characters at one index are pairwise distinct. */
  lemma DistinctAt(x: string, y: string, z: string, p: nat)
    requires p < |x| && p < |y| && p < |z|
    requires x[p] != y[p] && x[p] != z[p] && y[p] != z[p]
    ensures var r := [x, y, z]; forall a, b :: 0 <= a < b < |r| ==> r[a] != r[b]
  {
  }

  /**
   * For a URL naming a CDN node, the candidates are the URL itself and then
   * the URL with its leftmost node replaced by each other node in
   * r1, r2, r3 order; the three candidates are pairwise distinct.
   */
  lemma CandidatesWithNode(url: string)
    requires AnyNodeIn(url)
    ensures var r := CdnCandidates(url);
            var cur := ExtractCdnNode(url);
            exists k :: 0 <= k < |CdnNodes| && cur == CdnNodes[k]
              && r == [url, Replace(url, cur, OtherNodes(k)[0]), Replace(url, cur, OtherNodes(k)[1])]
    ensures var r := CdnCandidates(url);
            |r| == 3 && forall a, b :: 0 <= a < b < |r| ==> r[a] != r[b]
  {
    var i, k := LeftmostNode(url);
    AlternativesOfNode(url, k);
    ReplacedDistinct(url, i, k);
  }

  /** Where the leftmost node name starts, and which node it is. */
  lemma LeftmostNode(url: string) returns (i: nat, k: nat)
    requires AnyNodeIn(url)
    ensures NodeOccursAt(url, i) && forall j :: 0 <= j < i ==> !NodeOccursAt(url, j)
    ensures k < |CdnNodes| && ExtractCdnNode(url) == CdnNodes[k] == NodeAt(url, i)
  {
    AnyNodeInIff(url);
    i := FirstNode(url, 0).value;
    var cur := NodeAt(url, i);
    k :| 0 <= k < 3 && cur == CdnNodes[k];
  }

  /** The URL and its two rewrites differ in the digit after the leftmost node's `r`. */
  lemma ReplacedDistinct(url: string, i: nat, k: nat)
    requires k < |CdnNodes| && NodeOccursAt(url, i) && NodeAt(url, i) == CdnNodes[k]
    requires forall j :: 0 <= j < i ==> !NodeOccursAt(url, j)
    ensures var cur := CdnNodes[k];
            var r := [url, Replace(url, cur, OtherNodes(k)[0]), Replace(url, cur, OtherNodes(k)[1])];
            forall a, b :: 0 <= a < b < |r| ==> r[a] != r[b]
  {
    var cur := CdnNodes[k];
    var others := OtherNodes(k);
    OtherNodesDigits(k);
    ReplacedDigit(url, i, others[0]);
    ReplacedDigit(url, i, others[1]);
    assert url[i + 1] == cur[1];
    DistinctAt(url, Replace(url, cur, others[0]), Replace(url, cur, others[1]), i + 1);
  }
}
