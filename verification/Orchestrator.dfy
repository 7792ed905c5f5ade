/** Identity orchestration: the capping procedure over biometrics, context and step-up, and
    the maximum in a severity order that it computes. */
module Orchestrator {
  import opened Basics
  import Ledger

  datatype Decision = Approved | Review | Rejected
  datatype Outcome = Allow | StepUpRequired | SendToReview | Deny
  datatype Device = Trusted | KnownDevice | UnknownDevice | Blocked
  datatype Location = Normal | Elevated | Denied | UnknownLocation
  datatype StepUp = Satisfied | Pending | Refused

  datatype Modality = Modality(name: string, decision: Decision)

  datatype Policy = Policy(required: seq<string>, stepUpOnUnknownDevice: bool, stepUpOnElevatedLocation: bool, allowStepUpToClear: bool)

  datatype Signals = Signals(modalities: seq<Modality>, device: Option<Device>, location: Option<Location>, stepUp: Option<StepUp>)

  datatype Reason =
    | ModalityRejected(name: string) | DeviceBlocked | LocationDenied
    | RequiredMissing(name: string) | ModalityReview(name: string)
    | DeviceUnknownStepUp | LocationElevatedStepUp | StepUpDenied | StepUpSatisfied | AllFactorsSatisfied

  function Rank(o: Outcome): nat {
    match o case Allow => 0 case StepUpRequired => 1 case SendToReview => 2 case Deny => 3
  }

  function Worse(a: Outcome, b: Outcome): Outcome { if Rank(b) > Rank(a) then b else a }

  // ---------------------------------------------------------------- the four terms

  predicate AnyRejected(ms: seq<Modality>) { exists i :: 0 <= i < |ms| && ms[i].decision == Rejected }

  predicate HardDeny(s: Signals) { AnyRejected(s.modalities) || s.device == Some(Blocked) || s.location == Some(Denied) }

  /** Of two outcomes for one modality the later stands. */
  function ByModality(ms: seq<Modality>, name: string): Option<Decision> {
    if ms == [] then None
    else if ms[|ms| - 1].name == name then Some(ms[|ms| - 1].decision)
    else ByModality(ms[..|ms| - 1], name)
  }

  /** A required modality that is missing or under review. */
  predicate Wanting(ms: seq<Modality>, name: string) { ByModality(ms, name) in {None, Some(Review)} }

  predicate AnyWanting(p: Policy, ms: seq<Modality>) { exists i :: 0 <= i < |p.required| && Wanting(ms, p.required[i]) }

  predicate ContextRaised(p: Policy, s: Signals) {
    (p.stepUpOnUnknownDevice && s.device == Some(UnknownDevice)) || (p.stepUpOnElevatedLocation && s.location == Some(Elevated))
  }

  predicate ContextCleared(p: Policy, s: Signals) { s.stepUp == Some(Satisfied) && p.allowStepUpToClear }

  function Term(on: bool, o: Outcome): Outcome { if on then o else Allow }

  /** The worst of: a hard deny, a wanting required modality, a raised and uncleared context,
      a refused step-up. */
  function Worst(p: Policy, s: Signals): Outcome {
    Worse(Worse(Term(HardDeny(s), Deny), Term(AnyWanting(p, s.modalities), SendToReview)),
          Worse(Term(ContextRaised(p, s) && !ContextCleared(p, s), StepUpRequired), Term(s.stepUp == Some(Refused), SendToReview)))
  }

  /** A reason that a required modality gives. */
  predicate WantingReason(ms: seq<Modality>, required: seq<string>, r: Reason) {
    || (r.RequiredMissing? && r.name in required && ByModality(ms, r.name) == None)
    || (r.ModalityReview? && r.name in required && ByModality(ms, r.name) == Some(Review))
  }

  predicate IsContextReason(r: Reason) {
    r.DeviceUnknownStepUp? || r.LocationElevatedStepUp? || r.StepUpDenied? || r.StepUpSatisfied?
  }

  /** When each reason is given. */
  predicate Fires(p: Policy, s: Signals, r: Reason) {
    match r
    case ModalityRejected(name) => Modality(name, Rejected) in s.modalities
    case DeviceBlocked => s.device == Some(Blocked)
    case LocationDenied => s.location == Some(Denied)
    case RequiredMissing(name) => name in p.required && ByModality(s.modalities, name) == None
    case ModalityReview(name) => name in p.required && ByModality(s.modalities, name) == Some(Review)
    case DeviceUnknownStepUp =>
      !HardDeny(s) && !AnyWanting(p, s.modalities) && p.stepUpOnUnknownDevice && s.device == Some(UnknownDevice)
    case LocationElevatedStepUp =>
      !HardDeny(s) && !AnyWanting(p, s.modalities) && p.stepUpOnElevatedLocation && s.location == Some(Elevated)
    case StepUpDenied => s.stepUp == Some(Refused)
    case StepUpSatisfied => !HardDeny(s) && !AnyWanting(p, s.modalities) && ContextRaised(p, s) && ContextCleared(p, s)
    case AllFactorsSatisfied => false
  }

  /** The reasons given are those that fire, and the all-clear when none does. */
  ghost predicate Explained(p: Policy, s: Signals, reasons: seq<Reason>) {
    (reasons != [] && forall r :: r in reasons <==> Fires(p, s, r))
    || (reasons == [AllFactorsSatisfied] && forall r :: !Fires(p, s, r))
  }

  /** What goes into the ledger. */
  datatype Payload = Payload(outcome: Outcome, reasons: seq<Reason>)

  class Engine {
    const policy: Policy
    const audit: Ledger.Chain<Payload>

    constructor (policy: Policy, audit: Ledger.Chain<Payload>)
      ensures this.policy == policy && this.audit == audit
    {
      this.policy, this.audit := policy, audit;
    }

    /** Step 1. */
    method HardDenies(s: Signals) returns (outcome: Outcome, reasons: seq<Reason>)
      ensures outcome == Term(HardDeny(s), Deny)
      ensures forall r :: r in reasons <==> (r.ModalityRejected? || r.DeviceBlocked? || r.LocationDenied?) && Fires(policy, s, r)
    {
      outcome, reasons := Allow, [];
      for i := 0 to |s.modalities|
        invariant outcome == Term(AnyRejected(s.modalities[..i]), Deny)
        invariant forall r :: r in reasons <==> r.ModalityRejected? && Modality(r.name, Rejected) in s.modalities[..i]
      {
        var m := s.modalities[i];
        assert s.modalities[..i + 1] == s.modalities[..i] + [m];
        AnyRejectedNext(s.modalities[..i], m);
        if m.decision == Rejected {
          outcome := Worse(outcome, Deny);
          reasons := reasons + [ModalityRejected(m.name)];
        }
      }
      assert s.modalities[..|s.modalities|] == s.modalities;
      if s.device == Some(Blocked) {
        outcome := Worse(outcome, Deny);
        reasons := reasons + [DeviceBlocked];
      }
      if s.location == Some(Denied) {
        outcome := Worse(outcome, Deny);
        reasons := reasons + [LocationDenied];
      }
    }

    /** Step 2. */
    method RequiredModalities(s: Signals, before: Outcome, given: seq<Reason>) returns (outcome: Outcome, reasons: seq<Reason>, review: bool)
      ensures review <==> AnyWanting(policy, s.modalities)
      ensures outcome == Worse(before, Term(review, SendToReview))
      ensures forall r :: r in reasons <==> r in given || ((r.RequiredMissing? || r.ModalityReview?) && Fires(policy, s, r))
    {
      outcome, reasons, review := before, given, false;
      var required := policy.required;
      for i := 0 to |required|
        invariant review <==> exists k :: 0 <= k < i && Wanting(s.modalities, required[k])
        invariant outcome == Worse(before, Term(review, SendToReview))
        invariant forall r :: r in reasons <==> r in given || WantingReason(s.modalities, required[..i], r)
      {
        var found := ByModality(s.modalities, required[i]);
        assert required[..i + 1] == required[..i] + [required[i]];
        if found == None {
          outcome, review := Worse(outcome, SendToReview), true;
          reasons := reasons + [RequiredMissing(required[i])];
        } else if found == Some(Review) {
          outcome, review := Worse(outcome, SendToReview), true;
          reasons := reasons + [ModalityReview(required[i])];
        }
      }
      assert required[..|required|] == required;
    }

    /** Steps 3 and 4. */
    method ContextAndStepUp(s: Signals, before: Outcome, given: seq<Reason>, review: bool) returns (outcome: Outcome, reasons: seq<Reason>)
      requires review == AnyWanting(policy, s.modalities) && before == Worse(Term(HardDeny(s), Deny), Term(review, SendToReview))
      ensures outcome == Worst(policy, s)
      ensures forall r :: r in reasons <==> r in given || (IsContextReason(r) && Fires(policy, s, r))
    {
      outcome, reasons := before, given;
      var contextStepUp := false;
      if outcome == Allow || outcome == StepUpRequired {
        if policy.stepUpOnUnknownDevice && s.device == Some(UnknownDevice) {
          contextStepUp := true;
          reasons := reasons + [DeviceUnknownStepUp];
        }
        if policy.stepUpOnElevatedLocation && s.location == Some(Elevated) {
          contextStepUp := true;
          reasons := reasons + [LocationElevatedStepUp];
        }
        if contextStepUp {
          outcome := Worse(outcome, StepUpRequired);
        }
      }
      if s.stepUp == Some(Refused) {
        outcome := Worse(outcome, SendToReview);
        reasons := reasons + [StepUpDenied];
      } else if s.stepUp == Some(Satisfied) && contextStepUp && policy.allowStepUpToClear && outcome == StepUpRequired && !review {
        outcome := Allow;
        reasons := reasons + [StepUpSatisfied];
      }
    }

    /** decide, with the ledger entry it leaves. */
    method Decide(s: Signals) returns (outcome: Outcome, reasons: seq<Reason>, auditHash: string)
      requires audit.Valid()
      modifies audit
      ensures outcome == Worst(policy, s) && Explained(policy, s, reasons)
      ensures audit.Valid() && |audit.events| == |old(audit.events)| + 1 && auditHash == Ledger.Head(audit.events)
      ensures audit.events[..|old(audit.events)|] == old(audit.events)
      ensures audit.events[|old(audit.events)|].body == Payload(outcome, reasons)
    {
      var review;
      outcome, reasons := HardDenies(s);
      outcome, reasons, review := RequiredModalities(s, outcome, reasons);
      outcome, reasons := ContextAndStepUp(s, outcome, reasons, review);
      assert forall r :: r in reasons <==> Fires(policy, s, r);
      if reasons == [] {
        reasons := [AllFactorsSatisfied];
      }
      assert Explained(policy, s, reasons);
      auditHash := audit.Append(Payload(outcome, reasons));
    }
  }

  lemma AnyRejectedNext(ms: seq<Modality>, m: Modality)
    ensures AnyRejected(ms + [m]) <==> AnyRejected(ms) || m.decision == Rejected
  {
    var all := ms + [m];
    if i :| 0 <= i < |ms| && ms[i].decision == Rejected {
      assert all[i].decision == Rejected;
    }
    assert all[|ms|] == m;
  }

  // ---------------------------------------------------------------- what the maximum means

  /** Approval is given exactly when nothing is rejected, blocked, denied, wanting or refused,
      and any raised context has been cleared. */
  lemma ApprovedIff(p: Policy, s: Signals)
    ensures Worst(p, s) == Allow <==>
      && !HardDeny(s) && !AnyWanting(p, s.modalities) && s.stepUp != Some(Refused)
      && (ContextRaised(p, s) ==> ContextCleared(p, s))
  {
  }

  /** Whatever device, location and step-up bring, a rejected biometric is denied and a
      required one that is missing or under review is reviewed at best. */
  lemma NothingRescues(p: Policy, s: Signals, device: Option<Device>, location: Option<Location>, stepUp: Option<StepUp>)
    ensures var t := s.(device := device, location := location, stepUp := stepUp);
      && (AnyRejected(s.modalities) ==> Worst(p, t) == Deny)
      && (AnyWanting(p, s.modalities) ==> Rank(Worst(p, t)) >= Rank(SendToReview))
  {
  }

  ghost predicate Distinct(ms: seq<Modality>) { forall i, j :: 0 <= i < j < |ms| ==> ms[i].name != ms[j].name }

  /** With distinct names the lookup finds the entry of that name wherever it stands. */
  lemma {:induction false} LookupIff(ms: seq<Modality>, name: string, d: Decision)
    requires Distinct(ms)
    ensures ByModality(ms, name) == Some(d) <==> Modality(name, d) in ms
  {
    if ms != [] {
      var front, last := ms[..|ms| - 1], ms[|ms| - 1];
      LookupIff(front, name, d);
      assert ms == front + [last];
      if last.name == name {
        assert forall i :: 0 <= i < |front| ==> front[i].name != name;
      }
    }
  }

  ghost predicate SameElements<T(!new)>(a: seq<T>, b: seq<T>) { forall x :: x in a <==> x in b }

  /** The outcome does not depend on the order of distinctly named modalities, nor on the
      order or repetition of the required names. */
  lemma OrderIgnored(p: Policy, q: Policy, s: Signals, t: Signals)
    requires forall i, j :: 0 <= i < j < |s.modalities| ==> s.modalities[i].name != s.modalities[j].name
    requires forall i, j :: 0 <= i < j < |t.modalities| ==> t.modalities[i].name != t.modalities[j].name
    requires (forall m :: m in s.modalities <==> m in t.modalities) && (forall n :: n in p.required <==> n in q.required)
    requires q == p.(required := q.required) && t == s.(modalities := t.modalities)
    ensures Worst(p, s) == Worst(q, t)
  {
    SameRejected(s.modalities, t.modalities);
    SameRejected(t.modalities, s.modalities);
    SameWanting(p, q, s.modalities, t.modalities);
    SameWanting(q, p, t.modalities, s.modalities);
  }

  lemma SameRejected(ms: seq<Modality>, ns: seq<Modality>)
    requires SameElements(ms, ns)
    ensures AnyRejected(ms) ==> AnyRejected(ns)
  {
    if i :| 0 <= i < |ms| && ms[i].decision == Rejected {
      assert ms[i] in ns;
      var k :| 0 <= k < |ns| && ns[k] == ms[i];
    }
  }

  lemma SameWanting(p: Policy, q: Policy, ms: seq<Modality>, ns: seq<Modality>)
    requires Distinct(ms) && Distinct(ns) && SameElements(ms, ns) && SameElements(p.required, q.required)
    ensures AnyWanting(p, ms) ==> AnyWanting(q, ns)
  {
    if i :| 0 <= i < |p.required| && Wanting(ms, p.required[i]) {
      var name := p.required[i];
      SameLookup(ms, ns, name);
      assert name in q.required;
      var k :| 0 <= k < |q.required| && q.required[k] == name;
      assert Wanting(ns, q.required[k]);
    }
  }

  lemma SameLookup(ms: seq<Modality>, ns: seq<Modality>, name: string)
    requires Distinct(ms) && Distinct(ns) && SameElements(ms, ns)
    ensures ByModality(ms, name) == ByModality(ns, name)
  {
    hide Distinct, SameElements;
    var found := ByModality(ms, name);
    if found.Some? {
      LookupIff(ms, name, found.value);
      LookupIff(ns, name, found.value);
      assert Modality(name, found.value) in ns by { Carried(ms, ns, Modality(name, found.value)); }
    } else if ByModality(ns, name).Some? {
      var d := ByModality(ns, name).value;
      LookupIff(ns, name, d);
      LookupIff(ms, name, d);
      Carried(ms, ns, Modality(name, d));
    }
  }

  lemma Carried(ms: seq<Modality>, ns: seq<Modality>, m: Modality)
    requires SameElements(ms, ns)
    ensures m in ms <==> m in ns
  {
  }

  // ---------------------------------------------------------------- worse signals, worse outcome

  function Severity(d: Decision): nat { match d case Approved => 0 case Review => 1 case Rejected => 2 }

  function DeviceSeverity(d: Option<Device>): nat {
    match d case Some(Blocked) => 2 case Some(UnknownDevice) => 1 case _ => 0
  }

  function LocationSeverity(l: Option<Location>): nat {
    match l case Some(Denied) => 2 case Some(Elevated) => 1 case _ => 0
  }

  function StepUpSeverity(u: Option<StepUp>): nat {
    match u case Some(Satisfied) => 0 case Some(Refused) => 2 case _ => 1
  }

  /** The same modalities by name and place, none of them better. */
  ghost predicate NoBetter(ms: seq<Modality>, ns: seq<Modality>) {
    |ns| == |ms| && forall i :: 0 <= i < |ms| ==> ns[i].name == ms[i].name && Severity(ns[i].decision) >= Severity(ms[i].decision)
  }

  lemma {:induction false} LookupNoBetter(ms: seq<Modality>, ns: seq<Modality>, name: string)
    requires NoBetter(ms, ns)
    ensures ByModality(ms, name).Some? == ByModality(ns, name).Some?
    ensures ByModality(ms, name).Some? ==> Severity(ByModality(ns, name).value) >= Severity(ByModality(ms, name).value)
  {
    if ms != [] {
      LookupNoBetter(ms[..|ms| - 1], ns[..|ns| - 1], name);
    }
  }

  lemma WantingNoBetter(p: Policy, ms: seq<Modality>, ns: seq<Modality>)
    requires NoBetter(ms, ns) && AnyWanting(p, ms)
    ensures AnyWanting(p, ns) || AnyRejected(ns)
  {
    var i :| 0 <= i < |p.required| && Wanting(ms, p.required[i]);
    var name := p.required[i];
    LookupNoBetter(ms, ns, name);
    if !Wanting(ns, name) {
      LookupPresent(ns, name);
    }
  }

  lemma {:induction false} LookupPresent(ms: seq<Modality>, name: string)
    requires ByModality(ms, name) == Some(Rejected)
    ensures AnyRejected(ms)
  {
    if ms[|ms| - 1].name != name {
      LookupPresent(ms[..|ms| - 1], name);
      var i :| 0 <= i < |ms| - 1 && ms[..|ms| - 1][i].decision == Rejected;
      assert ms[i].decision == Rejected;
    }
  }

  lemma RejectedNoBetter(ms: seq<Modality>, ns: seq<Modality>)
    requires NoBetter(ms, ns) && AnyRejected(ms)
    ensures AnyRejected(ns)
  {
    var i :| 0 <= i < |ms| && ms[i].decision == Rejected;
    assert ns[i].decision == Rejected;
  }

  /** Making any biometric, device, location or step-up signal worse never makes the outcome
      better. */
  lemma OutcomeMonotone(p: Policy, s: Signals, t: Signals)
    requires |t.modalities| == |s.modalities|
    requires forall i :: 0 <= i < |s.modalities| ==>
      t.modalities[i].name == s.modalities[i].name && Severity(t.modalities[i].decision) >= Severity(s.modalities[i].decision)
    requires DeviceSeverity(t.device) >= DeviceSeverity(s.device) && LocationSeverity(t.location) >= LocationSeverity(s.location)
    requires StepUpSeverity(t.stepUp) >= StepUpSeverity(s.stepUp)
    ensures Rank(Worst(p, t)) >= Rank(Worst(p, s))
  {
    assert NoBetter(s.modalities, t.modalities);
    if AnyRejected(s.modalities) {
      RejectedNoBetter(s.modalities, t.modalities);
    }
    if AnyWanting(p, s.modalities) {
      WantingNoBetter(p, s.modalities, t.modalities);
    }
    hide NoBetter, AnyRejected, AnyWanting;
    assert HardDeny(s) ==> HardDeny(t);
  }

  // ---------------------------------------------------------------- when a review holds

  /** An entry stands when no later one has its name. */
  ghost predicate Stands(ms: seq<Modality>, i: nat)
    requires i < |ms|
  {
    forall k :: i < k < |ms| ==> ms[k].name != ms[i].name
  }

  ghost predicate Missing(ms: seq<Modality>, name: string) { forall i :: 0 <= i < |ms| ==> ms[i].name != name }

  ghost predicate StandsUnder(ms: seq<Modality>, i: nat, name: string, d: Decision) {
    i < |ms| && ms[i] == Modality(name, d) && Stands(ms, i)
  }

  ghost predicate StandsSomewhere(ms: seq<Modality>, name: string, d: Decision) { exists i :: StandsUnder(ms, i, name, d) }

  /** Some biometric is rejected, or a required one is missing or under review in the entry
      that stands. */
  ghost predicate HoldsBack(p: Policy, ms: seq<Modality>) {
    || (exists i :: 0 <= i < |ms| && ms[i].decision == Rejected)
    || (exists n :: n in p.required && (Missing(ms, n) || StandsSomewhere(ms, n, Review)))
  }

  /** Whatever device, location and step-up bring, the outcome is review or worse. */
  ghost predicate NeverBelowReview(p: Policy, ms: seq<Modality>) {
    forall device, location, stepUp :: Rank(Worst(p, Signals(ms, device, location, stepUp))) >= Rank(SendToReview)
  }

  lemma {:induction false} LookupStands(ms: seq<Modality>, name: string)
    ensures ByModality(ms, name) == None <==> Missing(ms, name)
    ensures forall d :: ByModality(ms, name) == Some(d) <==> StandsSomewhere(ms, name, d)
  {
    if ms != [] {
      var front, last := ms[..|ms| - 1], ms[|ms| - 1];
      LookupStands(front, name);
      if last.name == name {
        assert StandsUnder(ms, |ms| - 1, name, last.decision);
      } else {
        forall d ensures StandsSomewhere(ms, name, d) <==> StandsSomewhere(front, name, d) {
          if i :| StandsUnder(ms, i, name, d) {
            assert StandsUnder(front, i, name, d);
          }
          if i :| StandsUnder(front, i, name, d) {
            assert StandsUnder(ms, i, name, d);
          }
        }
      }
    }
  }

  lemma HoldsBackIs(p: Policy, ms: seq<Modality>)
    ensures HoldsBack(p, ms) <==> AnyRejected(ms) || AnyWanting(p, ms)
  {
    forall n ensures Wanting(ms, n) <==> Missing(ms, n) || StandsSomewhere(ms, n, Review) {
      LookupStands(ms, n);
    }
    hide Wanting, Missing, StandsSomewhere;
    if AnyWanting(p, ms) {
      var k :| 0 <= k < |p.required| && Wanting(ms, p.required[k]);
      assert p.required[k] in p.required;
    }
  }

  /** No context lifts the outcome above review exactly when a biometric is rejected or a
      required one is missing or under review in its last entry. */
  lemma NeverBelowReviewIff(p: Policy, ms: seq<Modality>)
    ensures NeverBelowReview(p, ms) <==> HoldsBack(p, ms)
  {
    HoldsBackIs(p, ms);
    hide HoldsBack, AnyRejected, AnyWanting;
    assert NeverBelowReview(p, ms) ==> Rank(Worst(p, Signals(ms, None, None, None))) >= Rank(SendToReview);
  }

  /** Whether an entry is under review or approved makes no difference in any context. */
  ghost predicate ReviewIgnored(p: Policy, ms: seq<Modality>, i: nat)
    requires i < |ms|
  {
    forall device, location, stepUp ::
      Worst(p, Signals(ms[i := Modality(ms[i].name, Approved)], device, location, stepUp)) == Worst(p, Signals(ms, device, location, stepUp))
  }

  /** An entry under review is ignored exactly when its name is not required, a later entry
      has its name, or something else holds the person back anyway. */
  lemma ReviewIgnoredIff(p: Policy, ms: seq<Modality>, i: nat)
    requires i < |ms| && ms[i].decision == Review
    ensures ReviewIgnored(p, ms, i) <==>
      ms[i].name !in p.required || !Stands(ms, i) || HoldsBack(p, ms[i := Modality(ms[i].name, Approved)])
  {
    var name := ms[i].name;
    var ns := ms[i := Modality(name, Approved)];
    SameRejections(ms, i);
    forall n ensures Wanting(ns, n) ==> Wanting(ms, n) {
      ApprovingLooksUp(ms, i, n);
    }
    forall n | n != name || !Stands(ms, i) ensures Wanting(ns, n) == Wanting(ms, n) {
      ApprovingLooksUp(ms, i, n);
    }
    HoldsBackIs(p, ns);
    if name in p.required && Stands(ms, i) {
      assert StandsUnder(ms, i, name, Review);
      LookupStands(ms, name);
      var k :| 0 <= k < |p.required| && p.required[k] == name;
      assert Wanting(ms, p.required[k]);
    }
    hide HoldsBack, AnyRejected, Wanting, Stands, ByModality;
    assert ReviewIgnored(p, ms, i) ==> Worst(p, Signals(ns, None, None, None)) == Worst(p, Signals(ms, None, None, None));
  }

  lemma SameRejections(ms: seq<Modality>, i: nat)
    requires i < |ms| && ms[i].decision == Review
    ensures AnyRejected(ms[i := Modality(ms[i].name, Approved)]) == AnyRejected(ms)
  {
    var ns := ms[i := Modality(ms[i].name, Approved)];
    if k :| 0 <= k < |ms| && ms[k].decision == Rejected {
      assert ns[k].decision == Rejected;
    }
  }

  /** Approving an entry changes what is looked up under its name, and that only when it
      stands. */
  lemma {:induction false} ApprovingLooksUp(ms: seq<Modality>, i: nat, n: string)
    requires i < |ms|
    ensures var ns := ms[i := Modality(ms[i].name, Approved)];
      if n == ms[i].name && Stands(ms, i) then ByModality(ns, n) == Some(Approved) else ByModality(ns, n) == ByModality(ms, n)
  {
    var ns := ms[i := Modality(ms[i].name, Approved)];
    var last := |ms| - 1;
    if i < last {
      ApprovingLooksUp(ms[..last], i, n);
      assert ns[..last] == ms[..last][i := Modality(ms[i].name, Approved)];
      assert Stands(ms, i) <==> Stands(ms[..last], i) && ms[last].name != ms[i].name by {
        assert forall k :: i < k < last ==> ms[..last][k] == ms[k];
      }
    } else {
      assert ns[..last] == ms[..last];
    }
  }

  /** A modality under review that is not required leaves no trace in the outcome. */
  lemma UnrequiredReviewIgnored(p: Policy, s: Signals, name: string)
    requires name !in p.required
    ensures Worst(p, s.(modalities := s.modalities + [Modality(name, Review)])) == Worst(p, s)
  {
    var m := Modality(name, Review);
    var all := s.modalities + [m];
    AnyRejectedNext(s.modalities, m);
    forall i | 0 <= i < |p.required| ensures Wanting(all, p.required[i]) == Wanting(s.modalities, p.required[i]) {
      assert p.required[i] != name && all[..|all| - 1] == s.modalities;
    }
  }

  /** A person whose face is under review is approved when only the finger is required. */
  lemma UnrequiredReviewApproved()
    ensures Worst(Policy(["fingerprint"], true, true, true),
      Signals([Modality("face", Review), Modality("fingerprint", Approved)], None, None, None)) == Allow
  {
    var ms := [Modality("face", Review), Modality("fingerprint", Approved)];
    assert ByModality(ms, "fingerprint") == Some(Approved);
  }

  /** A person whose face is required and under review is approved when a later entry of the
      same name approves it. */
  lemma OverriddenReviewApproved()
    ensures Worst(Policy(["face"], true, true, true),
      Signals([Modality("face", Review), Modality("face", Approved)], None, None, None)) == Allow
  {
    var ms := [Modality("face", Review), Modality("face", Approved)];
    assert ByModality(ms, "face") == Some(Approved);
  }

  // ---------------------------------------------------------------- the outcomes and reasons, spelled out

  /** The last entry of this name exists and reads review. */
  ghost predicate LastIsReview(ms: seq<Modality>, name: string) {
    exists i :: 0 <= i < |ms| && ms[i] == Modality(name, Review) && forall k :: i < k < |ms| ==> ms[k].name != name
  }

  lemma WantingMeans(ms: seq<Modality>, name: string)
    ensures ByModality(ms, name) == None <==> forall i :: 0 <= i < |ms| ==> ms[i].name != name
    ensures ByModality(ms, name) == Some(Review) <==> LastIsReview(ms, name)
  {
    LookupStands(ms, name);
    if LastIsReview(ms, name) {
      var i :| 0 <= i < |ms| && ms[i] == Modality(name, Review) && forall k :: i < k < |ms| ==> ms[k].name != name;
      assert StandsUnder(ms, i, name, Review);
    }
  }

  /** Someone is refused outright. */
  ghost predicate Barred(s: Signals) {
    || (exists i :: 0 <= i < |s.modalities| && s.modalities[i].decision == Rejected)
    || s.device == Some(Blocked) || s.location == Some(Denied)
  }

  /** A required biometric is missing, or its last entry reads review. */
  ghost predicate Unsettled(p: Policy, s: Signals) {
    exists n :: n in p.required && ((forall i :: 0 <= i < |s.modalities| ==> s.modalities[i].name != n) || LastIsReview(s.modalities, n))
  }

  /** The context asks for a step-up under this policy. */
  predicate AsksMore(p: Policy, s: Signals) {
    (s.device == Some(UnknownDevice) && p.stepUpOnUnknownDevice) || (s.location == Some(Elevated) && p.stepUpOnElevatedLocation)
  }

  lemma TermsMean(p: Policy, s: Signals)
    ensures HardDeny(s) == Barred(s) && AnyWanting(p, s.modalities) == Unsettled(p, s)
  {
    forall n ensures Wanting(s.modalities, n) <==>
      (forall i :: 0 <= i < |s.modalities| ==> s.modalities[i].name != n) || LastIsReview(s.modalities, n)
    {
      WantingMeans(s.modalities, n);
    }
    hide Wanting, LastIsReview;
    if AnyWanting(p, s.modalities) {
      var k :| 0 <= k < |p.required| && Wanting(s.modalities, p.required[k]);
      assert p.required[k] in p.required;
    }
    if n :| n in p.required && Wanting(s.modalities, n) {
      var k :| 0 <= k < |p.required| && p.required[k] == n;
    }
  }

  /** Which of the four outcomes is given, case by case: the first that applies of a refusal
      outright, a review, and a step-up that the context asks for and a satisfied one does
      not clear. */
  lemma OutcomeIff(p: Policy, s: Signals)
    ensures Worst(p, s) == Deny <==> Barred(s)
    ensures Worst(p, s) == SendToReview <==> !Barred(s) && (Unsettled(p, s) || s.stepUp == Some(Refused))
    ensures Worst(p, s) == StepUpRequired <==>
      && !Barred(s) && !Unsettled(p, s) && s.stepUp != Some(Refused)
      && AsksMore(p, s) && !(s.stepUp == Some(Satisfied) && p.allowStepUpToClear)
    ensures Worst(p, s) == Allow <==>
      && !Barred(s) && !Unsettled(p, s) && s.stepUp != Some(Refused)
      && (AsksMore(p, s) ==> s.stepUp == Some(Satisfied) && p.allowStepUpToClear)
  {
    TermsMean(p, s);
    hide HardDeny, AnyWanting, Barred, Unsettled;
  }

  /** Which reasons are given with it; the all-clear stands alone and means that nothing was
      raised, not even something a step-up cleared. */
  lemma ReasonsIff(p: Policy, s: Signals, reasons: seq<Reason>)
    requires Explained(p, s, reasons)
    ensures forall n :: ModalityRejected(n) in reasons <==> Modality(n, Rejected) in s.modalities
    ensures DeviceBlocked in reasons <==> s.device == Some(Blocked)
    ensures LocationDenied in reasons <==> s.location == Some(Denied)
    ensures forall n :: RequiredMissing(n) in reasons <==> n in p.required && forall i :: 0 <= i < |s.modalities| ==> s.modalities[i].name != n
    ensures forall n :: ModalityReview(n) in reasons <==> n in p.required && LastIsReview(s.modalities, n)
    ensures DeviceUnknownStepUp in reasons <==>
      !Barred(s) && !Unsettled(p, s) && s.device == Some(UnknownDevice) && p.stepUpOnUnknownDevice
    ensures LocationElevatedStepUp in reasons <==>
      !Barred(s) && !Unsettled(p, s) && s.location == Some(Elevated) && p.stepUpOnElevatedLocation
    ensures StepUpDenied in reasons <==> s.stepUp == Some(Refused)
    ensures StepUpSatisfied in reasons <==>
      !Barred(s) && !Unsettled(p, s) && AsksMore(p, s) && s.stepUp == Some(Satisfied) && p.allowStepUpToClear
    ensures AllFactorsSatisfied in reasons <==> !Barred(s) && !Unsettled(p, s) && s.stepUp != Some(Refused) && !AsksMore(p, s)
    ensures AllFactorsSatisfied in reasons ==> |reasons| == 1
  {
    TermsMean(p, s);
    forall n
      ensures ByModality(s.modalities, n) == None <==> forall i :: 0 <= i < |s.modalities| ==> s.modalities[i].name != n
      ensures ByModality(s.modalities, n) == Some(Review) <==> LastIsReview(s.modalities, n)
    {
      WantingMeans(s.modalities, n);
    }
    AllClear(p, s, reasons);
    hide LastIsReview, ByModality, Barred, Unsettled, HardDeny, AnyWanting;
  }

  lemma AllClear(p: Policy, s: Signals, reasons: seq<Reason>)
    requires Explained(p, s, reasons)
    ensures AllFactorsSatisfied in reasons <==>
      !HardDeny(s) && !AnyWanting(p, s.modalities) && s.stepUp != Some(Refused) && !ContextRaised(p, s)
    ensures AllFactorsSatisfied in reasons ==> reasons == [AllFactorsSatisfied]
    ensures AllFactorsSatisfied in reasons ==> forall r :: !Fires(p, s, r)
    ensures AllFactorsSatisfied !in reasons ==> forall r :: r in reasons <==> Fires(p, s, r)
  {
    SomeReason(p, s);
    assert reasons != [] && reasons[0] in reasons;
    hide HardDeny, AnyWanting, ContextRaised;
  }

  /** When nothing fires, nothing was raised. */
  lemma SomeReason(p: Policy, s: Signals)
    ensures (forall r :: !Fires(p, s, r)) <==> !HardDeny(s) && !AnyWanting(p, s.modalities) && s.stepUp != Some(Refused) && !ContextRaised(p, s)
  {
    if AnyRejected(s.modalities) {
      var i :| 0 <= i < |s.modalities| && s.modalities[i].decision == Rejected;
      assert s.modalities[i] in s.modalities && Fires(p, s, ModalityRejected(s.modalities[i].name));
    }
    if AnyWanting(p, s.modalities) {
      var k :| 0 <= k < |p.required| && Wanting(s.modalities, p.required[k]);
      assert p.required[k] in p.required;
      assert Fires(p, s, RequiredMissing(p.required[k])) || Fires(p, s, ModalityReview(p.required[k]));
    }
    assert s.device == Some(Blocked) ==> Fires(p, s, DeviceBlocked);
    assert s.location == Some(Denied) ==> Fires(p, s, LocationDenied);
    assert s.stepUp == Some(Refused) ==> Fires(p, s, StepUpDenied);
    if !HardDeny(s) && !AnyWanting(p, s.modalities) && ContextRaised(p, s) {
      assert Fires(p, s, DeviceUnknownStepUp) || Fires(p, s, LocationElevatedStepUp);
    }
    if r :| Fires(p, s, r) {
      NothingFires(p, s, r);
    }
  }

  lemma NothingFires(p: Policy, s: Signals, r: Reason)
    requires Fires(p, s, r)
    ensures HardDeny(s) || AnyWanting(p, s.modalities) || s.stepUp == Some(Refused) || ContextRaised(p, s)
  {
    if r.ModalityRejected? {
      var i :| 0 <= i < |s.modalities| && s.modalities[i] == Modality(r.name, Rejected);
    } else if r.RequiredMissing? || r.ModalityReview? {
      var k :| 0 <= k < |p.required| && p.required[k] == r.name;
      assert Wanting(s.modalities, p.required[k]);
    }
  }
}
