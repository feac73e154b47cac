/** The event classifier (classify/classify.go). */
module Classification {
  import opened Sequences
  import opened Sorting

  datatype Event = Event(eventType: string, actorType: string, actionResult: string, dataClasses: seq<string>)

  datatype RiskLevel = Low | Medium | High

  datatype Result = Result(dataClasses: seq<string>, riskLevel: RiskLevel)

  const HIGH_RISK: set<string> := {"pii", "customer_data", "phi", "pci", "financial"}

  predicate HasPrefix(s: string, prefix: string) {
    prefix <= s
  }

  /** The classes that the classifier adds to the declared ones. */
  predicate IsDerived(e: Event, c: string) {
    || (c == "ai_agent_action" && (e.actorType == "ai_agent" || HasPrefix(e.eventType, "agent.")))
    || (c == "data_event" && HasPrefix(e.eventType, "data."))
    || (c == "privileged_admin" && HasPrefix(e.eventType, "admin."))
    || (c == "identity_event" && HasPrefix(e.eventType, "identity."))
    || (c == "vendor_data_egress" && HasPrefix(e.eventType, "vendor."))
  }

  predicate IsClass(e: Event, c: string) {
    c in e.dataClasses || IsDerived(e, c)
  }

  predicate IsHighRisk(e: Event) {
    || (exists c :: c in HIGH_RISK && c in e.dataClasses)
    || e.eventType == "data.exported" || e.eventType == "data.shared_external"
  }

  predicate IsAtLeastMedium(e: Event) {
    || HasPrefix(e.eventType, "data.") || HasPrefix(e.eventType, "admin.")
    || e.actionResult == "denied" || e.actorType == "ai_agent"
  }

  function Risk(e: Event): RiskLevel {
    if IsHighRisk(e) then High else if IsAtLeastMedium(e) then Medium else Low
  }

  /** All classes of the event, once each and in the order of strings; and the highest level
      that any rule calls for. */
  ghost predicate IsResult(e: Event, r: Result) {
    && (forall c :: c in r.dataClasses <==> IsClass(e, c))
    && Distinct(r.dataClasses) && Sorted(r.dataClasses, StringAtMost)
    && r.riskLevel == Risk(e)
  }

  method CollectClasses(e: Event) returns (classes: set<string>)
    ensures forall c :: c in classes <==> IsClass(e, c)
  {
    classes := {};
    for i := 0 to |e.dataClasses|
      invariant forall c :: c in classes <==> c in e.dataClasses[..i]
    {
      classes := classes + {e.dataClasses[i]};
    }
    assert e.dataClasses[..|e.dataClasses|] == e.dataClasses;
    if e.actorType == "ai_agent" {
      classes := classes + {"ai_agent_action"};
    }
    if HasPrefix(e.eventType, "data.") {
      classes := classes + {"data_event"};
    }
    if HasPrefix(e.eventType, "admin.") {
      classes := classes + {"privileged_admin"};
    }
    if HasPrefix(e.eventType, "identity.") {
      classes := classes + {"identity_event"};
    }
    if HasPrefix(e.eventType, "agent.") {
      classes := classes + {"ai_agent_action"};
    }
    if HasPrefix(e.eventType, "vendor.") {
      classes := classes + {"vendor_data_egress"};
    }
  }

  /** The level starts low and is only ever raised. */
  method AssessRisk(e: Event, classes: seq<string>) returns (risk: RiskLevel)
    requires forall c :: c in classes <==> IsClass(e, c)
    ensures risk == Risk(e)
  {
    risk := Low;
    for i := 0 to |classes|
      invariant risk == Low && forall k :: 0 <= k < i ==> classes[k] !in HIGH_RISK
    {
      if classes[i] in HIGH_RISK {
        risk := High;
        break;
      }
    }
    assert risk == High <==> exists c :: c in HIGH_RISK && c in e.dataClasses by {
      RiskyAreDeclared(e, classes);
    }
    if e.eventType == "data.exported" {
      risk := High;
    }
    if e.eventType == "data.shared_external" {
      risk := High;
    }
    if risk != High {
      if HasPrefix(e.eventType, "data.") {
        risk := AtLeastMedium(risk);
      }
      if HasPrefix(e.eventType, "admin.") {
        risk := AtLeastMedium(risk);
      }
      if e.actionResult == "denied" {
        risk := AtLeastMedium(risk);
      }
      if e.actorType == "ai_agent" {
        risk := AtLeastMedium(risk);
      }
    }
  }

  function AtLeastMedium(risk: RiskLevel): RiskLevel {
    if risk == Low then Medium else risk
  }

  /** No derived class is risky in itself. */
  lemma RiskyAreDeclared(e: Event, classes: seq<string>)
    requires forall c :: c in classes <==> IsClass(e, c)
    ensures (exists k :: 0 <= k < |classes| && classes[k] in HIGH_RISK) <==> exists c :: c in HIGH_RISK && c in e.dataClasses
  {
    forall k | 0 <= k < |classes| && classes[k] in HIGH_RISK ensures classes[k] in e.dataClasses {
      assert classes[k] in classes;
    }
    forall c | c in HIGH_RISK && c in e.dataClasses ensures exists k :: 0 <= k < |classes| && classes[k] == c {
      assert IsClass(e, c);
    }
  }

  method Classify(e: Event) returns (r: Result)
    ensures IsResult(e, r)
    ensures forall i, j :: 0 <= i < j < |r.dataClasses| ==> r.dataClasses[i] != r.dataClasses[j]
    ensures forall c :: c in r.dataClasses
              <==> || c in e.dataClasses
                   || (c == "ai_agent_action" && (e.actorType == "ai_agent" || "agent." <= e.eventType))
                   || (c == "data_event" && "data." <= e.eventType)
                   || (c == "privileged_admin" && "admin." <= e.eventType)
                   || (c == "identity_event" && "identity." <= e.eventType)
                   || (c == "vendor_data_egress" && "vendor." <= e.eventType)
    ensures r.riskLevel == High
      <==> || e.eventType == "data.exported" || e.eventType == "data.shared_external"
           || exists c :: c in e.dataClasses && c in ["pii", "customer_data", "phi", "pci", "financial"]
    ensures r.riskLevel == Low
      <==> && r.riskLevel != High
           && !("data." <= e.eventType) && !("admin." <= e.eventType)
           && e.actionResult != "denied" && e.actorType != "ai_agent"
  {
    hide StringAtMost;
    var set' := CollectClasses(e);
    var listed := Elements(set');
    StringOrder();
    var classes := Sort(listed, StringAtMost);
    ListedSet(classes, set');
    var risk := AssessRisk(e, classes);
    r := Result(classes, risk);
  }

  /** An event has one result. */
  lemma ResultUnique(e: Event, r: Result, r': Result)
    requires IsResult(e, r) && IsResult(e, r')
    ensures r == r'
  {
    hide IsDerived, Risk, StringAtMost;
    SameElements(r.dataClasses, r'.dataClasses);
    StringsNoTies(r.dataClasses);
    SortingUnique(r.dataClasses, r'.dataClasses, StringAtMost);
  }

  lemma DerivedIsNotRisky(e: Event, c: string)
    requires c in HIGH_RISK
    ensures !IsDerived(e, c)
  {
  }

  /** Classifying again, with the classes that came out, changes nothing. */
  lemma ClassifyIsIdempotent(e: Event, r: Result, r': Result)
    requires IsResult(e, r) && IsResult(e.(dataClasses := r.dataClasses), r')
    ensures r' == r
  {
    hide StringAtMost, Risk;
    var e' := e.(dataClasses := r.dataClasses);
    assert forall c :: IsClass(e', c) <==> IsClass(e, c);
    assert IsHighRisk(e') <==> IsHighRisk(e) by {
      forall c | c in HIGH_RISK ensures c in e'.dataClasses <==> c in e.dataClasses {
        DerivedIsNotRisky(e, c);
      }
    }
    SameRisk(e, e');
    SameElements(r.dataClasses, r'.dataClasses);
    StringsNoTies(r.dataClasses);
    SortingUnique(r.dataClasses, r'.dataClasses, StringAtMost);
  }

  lemma SameRisk(e: Event, e': Event)
    requires e' == e.(dataClasses := e'.dataClasses) && (IsHighRisk(e') <==> IsHighRisk(e))
    ensures Risk(e') == Risk(e)
  {
  }
}
