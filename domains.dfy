/** The domain catalogue: which email domains may be used to create an inbox. */
module Domains {

  datatype Domain = Domain(name: string, isActive: bool, isPrivate: bool)

  /** The filter `d => d.isActive && !d.isPrivate`. */
  predicate IsEligible(d: Domain) {
    d.isActive && !d.isPrivate
  }

  /** Some domain of the list is usable for inbox creation. */
  predicate HasEligible(ds: seq<Domain>) {
    exists i :: 0 <= i < |ds| && IsEligible(ds[i])
  }

  /** `domains.filter(d => d.isActive && !d.isPrivate)`, keeping the catalogue order. */
  function EligibleDomains(ds: seq<Domain>): (r: seq<Domain>)
    ensures |r| <= |ds|
    ensures forall d :: d in r ==> d in ds && IsEligible(d)
    ensures forall i :: 0 <= i < |ds| && IsEligible(ds[i]) ==> ds[i] in r
    ensures |r| > 0 <==> HasEligible(ds)
    ensures |r| == |ds| <==> forall i :: 0 <= i < |ds| ==> IsEligible(ds[i])
  {
    if ds == [] then []
    else
      var rest := EligibleDomains(ds[1..]);
      assert forall i :: 1 <= i < |ds| ==> ds[i] == ds[1..][i - 1];
      if IsEligible(ds[0]) then [ds[0]] + rest else rest
  }

  /** The filter keeps relative order: the result is the list with the ineligible domains dropped. */
  lemma {:induction false} EligibleDomainsOfConcat(a: seq<Domain>, b: seq<Domain>)
    ensures EligibleDomains(a + b) == EligibleDomains(a) + EligibleDomains(b)
  {
    if a == [] {
      assert a + b == b;
    } else {
      assert (a + b)[0] == a[0];
      assert (a + b)[1..] == a[1..] + b;
      EligibleDomainsOfConcat(a[1..], b);
    }
  }
}
