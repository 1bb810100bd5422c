/** The auto-provisioning effect: when the component asks the hook to create an inbox. */
module Provisioning {
  import opened Wrappers
  import opened Domains

  /**
   * The auto-create effect's decision: the outer guard on the session and catalogue flags and a
   * non-empty list, then the inner check that the eligible-domain filter is non-empty.
   */
  function ShouldAutoCreate(isAuthenticated: bool, isCreating: bool, domainsLoading: bool,
                            domainsError: bool, domains: Option<seq<Domain>>): (create: bool)
    ensures create <==>
      !isAuthenticated && !isCreating && !domainsLoading && !domainsError &&
      domains.Some? && HasEligible(domains.value)
  {
    if !isAuthenticated && !isCreating && !domainsLoading && !domainsError
       && domains.Some? && |domains.value| > 0
    then |EligibleDomains(domains.value)| > 0
    else false
  }

  /** The inputs of one run of the auto-create effect (one change of its dependencies). */
  datatype EffectRun = EffectRun(isAuthenticated: bool, isCreating: bool, domainsLoading: bool,
                                 domainsError: bool, domains: Option<seq<Domain>>)

  function Creates(run: EffectRun): bool {
    ShouldAutoCreate(run.isAuthenticated, run.isCreating, run.domainsLoading, run.domainsError, run.domains)
  }

  /** How many times `createInbox()` is called over a sequence of effect runs. */
  function CreateCalls(runs: seq<EffectRun>): nat
  {
    if runs == [] then 0 else (if Creates(runs[0]) then 1 else 0) + CreateCalls(runs[1..])
  }

  predicate Unusable(domains: Option<seq<Domain>>) {
    domains.None? || !HasEligible(domains.value)
  }

  /** Without an eligible domain (an empty list, or all inactive or private) no inbox is ever requested. */
  lemma {:induction false} NoEligibleDomainNeverCreates(runs: seq<EffectRun>)
    requires forall i :: 0 <= i < |runs| ==> Unusable(runs[i].domains)
    ensures CreateCalls(runs) == 0
  {
    if runs != [] {
      assert Unusable(runs[0].domains);
      NoEligibleDomainNeverCreates(runs[1..]);
    }
  }

  /** While a creation is in flight, no second creation is requested, however often the effect re-runs. */
  lemma {:induction false} CreatingNeverCreatesAgain(runs: seq<EffectRun>)
    requires forall i :: 0 <= i < |runs| ==> runs[i].isCreating
    ensures CreateCalls(runs) == 0
  {
    if runs != [] {
      assert runs[0].isCreating;
      CreatingNeverCreatesAgain(runs[1..]);
    }
  }

  /** Every create call comes from a run where all five conditions hold. */
  lemma {:induction false} CreateCallsBounded(runs: seq<EffectRun>)
    ensures CreateCalls(runs) <= |runs|
    ensures CreateCalls(runs) > 0 ==> exists i :: 0 <= i < |runs| && Creates(runs[i])
  {
    if runs != [] {
      CreateCallsBounded(runs[1..]);
      if !Creates(runs[0]) && CreateCalls(runs) > 0 {
        var j :| 0 <= j < |runs[1..]| && Creates(runs[1..][j]);
        assert Creates(runs[j + 1]);
      }
    }
  }
}
