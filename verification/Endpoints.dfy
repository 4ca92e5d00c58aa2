/** Upstream endpoints and the two names the router gives them.

    The proxy handler names an endpoint by its URL and a 4+4 mask of its API key, the
    balancer by its URL and a 3+3 mask.  Keys are byte strings in the source; here a
    character stands for one byte. */
module Endpoints {
  datatype Endpoint = Endpoint(url: string, key: string, weight: nat, rpm: nat, tpm: nat)

  /** mask_key of src/proxy/handler.rs. */
  function MaskFour(key: string): string {
    if |key| <= 8 then "***" else key[..4] + "..." + key[|key| - 4..]
  }

  /** mask_key of src/router/balancer.rs. */
  function MaskThree(key: string): string {
    if |key| <= 6 then "***" else key[..3] + "..." + key[|key| - 3..]
  }

  function HandlerName(ep: Endpoint): string {
    ep.url + ":" + MaskFour(ep.key)
  }

  function BalancerName(ep: Endpoint): string {
    ep.url + ":" + MaskThree(ep.key)
  }

  /** Two keys mask alike exactly when both are short, or both are long and begin and end
      alike: the handler looks at four characters on each side, the balancer at three. */
  lemma SameMask(a: string, b: string)
    ensures MaskFour(a) == MaskFour(b) <==>
      (|a| <= 8 && |b| <= 8) || (|a| > 8 && |b| > 8 && a[..4] == b[..4] && a[|a| - 4..] == b[|b| - 4..])
    ensures MaskThree(a) == MaskThree(b) <==>
      (|a| <= 6 && |b| <= 6) || (|a| > 6 && |b| > 6 && a[..3] == b[..3] && a[|a| - 3..] == b[|b| - 3..])
  {
    if |a| > 8 && |b| > 8 && MaskFour(a) == MaskFour(b) {
      assert MaskFour(a)[..4] == a[..4] && MaskFour(b)[..4] == b[..4];
      assert MaskFour(a)[7..] == a[|a| - 4..] && MaskFour(b)[7..] == b[|b| - 4..];
    }
    if |a| > 6 && |b| > 6 && MaskThree(a) == MaskThree(b) {
      assert MaskThree(a)[..3] == a[..3] && MaskThree(b)[..3] == b[..3];
      assert MaskThree(a)[6..] == a[|a| - 3..] && MaskThree(b)[6..] == b[|b| - 3..];
    }
  }

  /** A mask hides the middle of the key: it is three stars, or the ends around three dots. */
  lemma MaskHides(key: string)
    ensures |key| <= 8 ==> MaskFour(key) == "***"
    ensures |key| > 8 ==> |MaskFour(key)| == 11 && MaskFour(key)[..4] <= key && MaskFour(key)[4..7] == "..."
    ensures |key| <= 6 ==> MaskThree(key) == "***"
    ensures |key| > 6 ==> |MaskThree(key)| == 9 && MaskThree(key)[..3] <= key && MaskThree(key)[3..6] == "..."
  {}

  /** The two names of an endpoint are equal exactly for keys of at most six bytes. */
  lemma NamesAgreeExactly(ep: Endpoint)
    ensures HandlerName(ep) == BalancerName(ep) <==> |ep.key| <= 6
  {
    assert |HandlerName(ep)| == |ep.url| + 1 + |MaskFour(ep.key)|;
    assert |BalancerName(ep)| == |ep.url| + 1 + |MaskThree(ep.key)|;
  }
}
