/** Performance obligations from a contract and its terms (packages/revrec/src/obligations.ts). */
module Obligations {
  import opened Wrappers
  import opened Sequences
  import opened Calendar
  import opened RevRecTypes

  /** A term with its value already parsed; None when it does not parse as an amount. */
  datatype ContractTerm = ContractTerm(id: string, termType: string, value: Option<real>)

  datatype ContractInput = ContractInput(
    startDate: Option<Day>,
    endDate: Option<Day>,
    arr: Option<real>,
    terms: seq<ContractTerm>)

  datatype InvalidDates = InvalidDates(start: Day, end: Day)

  datatype TermMapping = TermMapping(obligationType: ObligationType, recognitionMethod: RecognitionMethod)

  /** TERM_TYPE_MAPPINGS */
  function MappingOf(termType: string): Option<TermMapping> {
    match termType
    case "contract_value" => Some(TermMapping(Subscription, StraightLine))
    case "billing_cadence" => Some(TermMapping(Subscription, StraightLine))
    case "term_length" => Some(TermMapping(Subscription, StraightLine))
    case "support_terms" => Some(TermMapping(Support, StraightLine))
    case "usage_terms" => Some(TermMapping(Usage, UsageBased))
    case "professional_services" => Some(TermMapping(ProfessionalServices, Milestone))
    case "one_time_fee" => Some(TermMapping(OneTime, AsInvoiced))
    case "setup_fee" => Some(TermMapping(OneTime, AsInvoiced))
    case "implementation" => Some(TermMapping(ProfessionalServices, Milestone))
    case _ => None
  }

  /** The recognition method that goes with an obligation type. */
  function MethodOf(obligationType: ObligationType): RecognitionMethod {
    match obligationType
    case Subscription => StraightLine
    case Support => StraightLine
    case Usage => UsageBased
    case ProfessionalServices => Milestone
    case OneTime => AsInvoiced
  }

  // ---------- Grouping ----------

  function OfType(obligationType: ObligationType): ContractTerm -> bool {
    (t: ContractTerm) =>
      MappingOf(t.termType).Some? && MappingOf(t.termType).value.obligationType == obligationType
  }

  /** The obligation types of the terms that map to one, in order. */
  function TypesOf(terms: seq<ContractTerm>): seq<ObligationType> {
    if terms == [] then []
    else
      var k := |terms| - 1;
      match MappingOf(terms[k].termType)
      case Some(mapping) => TypesOf(terms[..k]) + [mapping.obligationType]
      case None => TypesOf(terms[..k])
  }

  lemma NothingGrouped(terms: seq<ContractTerm>)
    ensures Distinct(TypesOf(terms[..0])) == [] && forall t :: Filter(OfType(t), terms[..0]) == []
  {
  }

  /** What one more term changes. */
  lemma GroupStep(terms: seq<ContractTerm>, i: nat)
    requires i < |terms|
    ensures var (before, mapping) := (Distinct(TypesOf(terms[..i])), MappingOf(terms[i].termType));
      Distinct(TypesOf(terms[..i + 1])) ==
        if mapping.None? || mapping.value.obligationType in before then before
        else before + [mapping.value.obligationType]
    ensures forall t ::
              Filter(OfType(t), terms[..i + 1]) ==
              if MappingOf(terms[i].termType).Some? && MappingOf(terms[i].termType).value.obligationType == t
              then Filter(OfType(t), terms[..i]) + [terms[i]] else Filter(OfType(t), terms[..i])
  {
    hide MappingOf;
    assert terms[..i + 1][..i] == terms[..i];
    if MappingOf(terms[i].termType).Some? {
      var types := TypesOf(terms[..i]);
      var t := MappingOf(terms[i].termType).value.obligationType;
      assert (types + [t])[..|types|] == types;
    }
  }

  /** The groups in insertion order of their keys, as Object.entries lists them. */
  method GroupTermsByObligation(terms: seq<ContractTerm>)
    returns (order: seq<ObligationType>, groups: map<ObligationType, seq<ContractTerm>>)
    ensures order == Distinct(TypesOf(terms))
    ensures forall t :: t in groups <==> t in order
    ensures forall t :: t in groups ==> groups[t] == Filter(OfType(t), terms)
  {
    hide MappingOf, OfType, Filter, TypesOf, Distinct;
    order, groups := [], map[];
    NothingGrouped(terms);
    assert terms[..0] == [];
    for i := 0 to |terms|
      invariant order == Distinct(TypesOf(terms[..i]))
      invariant forall t :: t in groups <==> t in order
      invariant forall t :: t in groups ==> groups[t] == Filter(OfType(t), terms[..i])
      invariant forall t :: t !in groups ==> Filter(OfType(t), terms[..i]) == []
    {
      var term := terms[i];
      GroupStep(terms, i);
      match MappingOf(term.termType) {
        case Some(mapping) =>
          var t := mapping.obligationType;
          if t !in groups {
            groups := groups[t := []];
            order := order + [t];
          }
          groups := groups[t := groups[t] + [term]];
        case None =>
      }
    }
    assert terms[..|terms|] == terms;
  }

  // ---------- One obligation ----------

  /** The last contract value that parses, 0 when there is none. */
  function LastValue(terms: seq<ContractTerm>): real {
    if terms == [] then 0.0
    else
      var k := |terms| - 1;
      if terms[k].termType == "contract_value" && terms[k].value.Some? then terms[k].value.value
      else LastValue(terms[..k])
  }

  predicate HasValue(term: ContractTerm) {
    term.termType == "contract_value" && term.value.Some?
  }

  /** Of several contract values the last one counts. */
  lemma {:induction false} LastValueMeaning(terms: seq<ContractTerm>)
    ensures (forall i :: 0 <= i < |terms| ==> !HasValue(terms[i])) ==> LastValue(terms) == 0.0
    ensures forall i :: 0 <= i < |terms| && HasValue(terms[i]) && (forall j :: i < j < |terms| ==> !HasValue(terms[j]))
              ==> LastValue(terms) == terms[i].value.value
  {
    if terms != [] {
      var k := |terms| - 1;
      LastValueMeaning(terms[..k]);
      assert forall i :: 0 <= i < k ==> terms[..k][i] == terms[i];
      if !HasValue(terms[k]) {
        forall i | 0 <= i < |terms| && HasValue(terms[i]) && (forall j :: i < j < |terms| ==> !HasValue(terms[j]))
          ensures LastValue(terms[..k]) == terms[i].value.value
        {
          assert HasValue(terms[..k][i]);
        }
      }
    }
  }

  function PriceOf(terms: seq<ContractTerm>, arr: Option<real>): real {
    if LastValue(terms) == 0.0 then arr.GetOr(0.0) else LastValue(terms)
  }

  function Ids(terms: seq<ContractTerm>): (ids: seq<string>)
    ensures |ids| == |terms|
    ensures forall i :: 0 <= i < |terms| ==> ids[i] == terms[i].id
  {
    seq(|terms|, i requires 0 <= i < |terms| => terms[i].id)
  }

  function GetRecognitionMethod(obligationType: ObligationType, terms: seq<ContractTerm>): RecognitionMethod {
    if terms == [] then MethodOf(obligationType)
    else
      match MappingOf(terms[0].termType)
      case Some(mapping) => mapping.recognitionMethod
      case None => GetRecognitionMethod(obligationType, terms[1..])
  }

  function ObligationFrom(
    contract: ContractInput, obligationType: ObligationType, terms: seq<ContractTerm>, start: Day, end: Day)
    : Option<IdentifiedObligation>
  {
    var price := PriceOf(terms, contract.arr);
    if price <= 0.0 then None
    else Some(IdentifiedObligation(obligationType, price, None, start, end, Ids(terms),
                                   GetRecognitionMethod(obligationType, terms)))
  }

  method CreateObligationFromTerms(
    contract: ContractInput, obligationType: ObligationType, terms: seq<ContractTerm>, start: Day, end: Day)
    returns (obligation: Option<IdentifiedObligation>)
    ensures obligation == ObligationFrom(contract, obligationType, terms, start, end)
  {
    var transactionPrice := 0.0;
    assert terms[..0] == [];
    for i := 0 to |terms|
      invariant transactionPrice == LastValue(terms[..i])
    {
      assert terms[..i + 1][..i] == terms[..i];
      if terms[i].termType == "contract_value" {
        var value := terms[i].value;
        if value.Some? {
          transactionPrice := value.value;
        }
      }
    }
    assert terms[..|terms|] == terms;
    if transactionPrice == 0.0 {
      transactionPrice := contract.arr.GetOr(0.0);
    }
    if transactionPrice <= 0.0 {
      return None;
    }
    return Some(IdentifiedObligation(obligationType, transactionPrice, None, start, end, Ids(terms),
                                     GetRecognitionMethod(obligationType, terms)));
  }

  function CreateDefaultObligation(contract: ContractInput, start: Day, end: Day): seq<IdentifiedObligation> {
    var price := contract.arr.GetOr(0.0);
    if price <= 0.0 then []
    else [IdentifiedObligation(Subscription, price, None, start, end, [], StraightLine)]
  }

  // ---------- All obligations ----------

  function ServiceStart(contract: ContractInput, now: Day): Day {
    contract.startDate.GetOr(now)
  }

  function ServiceEnd(contract: ContractInput, now: Day): Day {
    contract.endDate.GetOr(AddYears(ServiceStart(contract, now), 1))
  }

  function ObligationsFrom(contract: ContractInput, types: seq<ObligationType>, start: Day, end: Day)
    : seq<IdentifiedObligation>
  {
    if types == [] then []
    else
      var k := |types| - 1;
      var earlier := ObligationsFrom(contract, types[..k], start, end);
      match ObligationFrom(contract, types[k], Filter(OfType(types[k]), contract.terms), start, end)
      case Some(o) => earlier + [o]
      case None => earlier
  }

  function Identified(contract: ContractInput, now: Day): Result<seq<IdentifiedObligation>, InvalidDates> {
    var (start, end) := (ServiceStart(contract, now), ServiceEnd(contract, now));
    if end <= start then Failure(InvalidDates(start, end))
    else
      var obligations := ObligationsFrom(contract, Distinct(TypesOf(contract.terms)), start, end);
      Success(if obligations == [] then CreateDefaultObligation(contract, start, end) else obligations)
  }

  method IdentifyObligations(contract: ContractInput, now: Day)
    returns (result: Result<seq<IdentifiedObligation>, InvalidDates>)
    ensures result == Identified(contract, now)
  {
    hide AddYears, OfType, ObligationFrom;
    var serviceStartDate := contract.startDate.GetOr(now);
    var serviceEndDate := contract.endDate.GetOr(AddYears(serviceStartDate, 1));
    if serviceEndDate <= serviceStartDate {
      return Failure(InvalidDates(serviceStartDate, serviceEndDate));
    }
    if |contract.terms| == 0 {
      return Success(CreateDefaultObligation(contract, serviceStartDate, serviceEndDate));
    }
    var order, groups := GroupTermsByObligation(contract.terms);
    var obligations := [];
    assert order[..0] == [];
    for i := 0 to |order|
      invariant obligations == ObligationsFrom(contract, order[..i], serviceStartDate, serviceEndDate)
    {
      assert order[..i + 1][..i] == order[..i];
      assert order[i] in order;
      var obligation :=
        CreateObligationFromTerms(contract, order[i], groups[order[i]], serviceStartDate, serviceEndDate);
      if obligation.Some? {
        obligations := obligations + [obligation.value];
      }
    }
    assert order[..|order|] == order;
    if |obligations| == 0 {
      return Success(CreateDefaultObligation(contract, serviceStartDate, serviceEndDate));
    }
    return Success(obligations);
  }

  // ---------- What identification guarantees ----------

  lemma {:induction false} MethodFollowsType(obligationType: ObligationType, terms: seq<ContractTerm>)
    requires forall i :: 0 <= i < |terms| ==> OfType(obligationType)(terms[i])
    ensures GetRecognitionMethod(obligationType, terms) == MethodOf(obligationType)
  {
    if terms != [] {
      assert OfType(obligationType)(terms[0]);
    }
  }

  /** A priced obligation over the whole service term, recognised in the way of its type. */
  ghost predicate Sound(o: IdentifiedObligation, contract: ContractInput, start: Day, end: Day) {
    && o.transactionPrice > 0.0
    && o.standaloneSellingPrice == None
    && o.serviceStartDate == start
    && o.serviceEndDate == end
    && o.recognitionMethod == MethodOf(o.obligationType)
  }

  /** ...identified from all the terms of its type, in order. */
  ghost predicate FromType(o: IdentifiedObligation, contract: ContractInput, start: Day, end: Day) {
    var terms := Filter(OfType(o.obligationType), contract.terms);
    && Sound(o, contract, start, end)
    && o.sourceTermIds == Ids(terms)
    && o.transactionPrice == PriceOf(terms, contract.arr)
  }

  lemma ObligationSound(contract: ContractInput, obligationType: ObligationType, start: Day, end: Day)
    ensures var terms := Filter(OfType(obligationType), contract.terms);
      var o := ObligationFrom(contract, obligationType, terms, start, end);
      && (o.Some? <==> PriceOf(terms, contract.arr) > 0.0)
      && (o.Some? ==> o.value.obligationType == obligationType && FromType(o.value, contract, start, end))
  {
    var terms := Filter(OfType(obligationType), contract.terms);
    FilterMembers(OfType(obligationType), contract.terms);
    forall i | 0 <= i < |terms| ensures OfType(obligationType)(terms[i]) {
      assert terms[i] in terms;
    }
    MethodFollowsType(obligationType, terms);
  }

  /** One obligation for each type whose price is positive, and each type at most once. */
  ghost predicate ByType(
    obligations: seq<IdentifiedObligation>, contract: ContractInput, types: seq<ObligationType>, start: Day, end: Day)
  {
    && (forall i :: 0 <= i < |obligations| ==>
          FromType(obligations[i], contract, start, end) && obligations[i].obligationType in types)
    && (forall i, j :: 0 <= i < j < |obligations| ==> obligations[i].obligationType != obligations[j].obligationType)
    && (forall t :: t in types && PriceOf(Filter(OfType(t), contract.terms), contract.arr) > 0.0 ==>
          exists i :: 0 <= i < |obligations| && obligations[i].obligationType == t)
  }

  lemma {:induction false} ObligationsByType(contract: ContractInput, types: seq<ObligationType>, start: Day, end: Day)
    requires NoDuplicates(types)
    ensures ByType(ObligationsFrom(contract, types, start, end), contract, types, start, end)
  {
    if types != [] {
      hide OfType, ObligationFrom, PriceOf, FromType, Filter;
      var k := |types| - 1;
      ObligationsByType(contract, types[..k], start, end);
      ObligationSound(contract, types[k], start, end);
      ByTypePush(ObligationsFrom(contract, types[..k], start, end), contract, types[..k], types[k], start, end);
      assert types == types[..k] + [types[k]];
    }
  }

  lemma ByTypePush(earlier: seq<IdentifiedObligation>, contract: ContractInput, types: seq<ObligationType>,
                   last: ObligationType, start: Day, end: Day)
    requires ByType(earlier, contract, types, start, end) && last !in types
    ensures var o := ObligationFrom(contract, last, Filter(OfType(last), contract.terms), start, end);
      var all := if o.Some? then earlier + [o.value] else earlier;
      ByType(all, contract, types + [last], start, end)
  {
    hide OfType, ObligationFrom, PriceOf, FromType, Filter;
    ObligationSound(contract, last, start, end);
    var o := ObligationFrom(contract, last, Filter(OfType(last), contract.terms), start, end);
    var all := if o.Some? then earlier + [o.value] else earlier;
    forall t | t in types + [last] && PriceOf(Filter(OfType(t), contract.terms), contract.arr) > 0.0
      ensures exists i :: 0 <= i < |all| && all[i].obligationType == t
    {
      if t in types {
        var i :| 0 <= i < |earlier| && earlier[i].obligationType == t;
        assert all[i].obligationType == t;
      } else {
        assert all[|earlier|].obligationType == t;
      }
    }
  }

  /** All obligations sound, and of different types. */
  ghost predicate AllSound(obligations: seq<IdentifiedObligation>, contract: ContractInput, start: Day, end: Day) {
    && (forall i :: 0 <= i < |obligations| ==> Sound(obligations[i], contract, start, end))
    && forall i, j :: 0 <= i < j < |obligations| ==> obligations[i].obligationType != obligations[j].obligationType
  }

  lemma ByTypeIsSound(
    obligations: seq<IdentifiedObligation>, contract: ContractInput, types: seq<ObligationType>, start: Day, end: Day)
    requires ByType(obligations, contract, types, start, end)
    ensures AllSound(obligations, contract, start, end)
  {
    hide OfType, PriceOf, Filter;
    forall i | 0 <= i < |obligations| ensures Sound(obligations[i], contract, start, end) {
      assert FromType(obligations[i], contract, start, end);
    }
  }

  /**
   * Identification fails exactly on an end date given at or before the start; otherwise every
   * obligation has a positive price, covers the whole, non-empty service term, is recognised in
   * the way of its type, and no two have the same type.
   */
  lemma IdentifiedIsSound(contract: ContractInput, now: Day)
    ensures var (start, end) := (ServiceStart(contract, now), ServiceEnd(contract, now));
      && (Identified(contract, now).Failure? <==> contract.endDate.Some? && contract.endDate.value <= start)
      && (Identified(contract, now).Success? ==>
            start < end && AllSound(Identified(contract, now).value, contract, start, end))
  {
    hide AddYears, ByType, TypesOf, ObligationsFrom;
    var start, end := ServiceStart(contract, now), ServiceEnd(contract, now);
    var types := Distinct(TypesOf(contract.terms));
    NextYearIsLater(start);
    DistinctMembers(TypesOf(contract.terms));
    ObligationsByType(contract, types, start, end);
    ByTypeIsSound(ObligationsFrom(contract, types, start, end), contract, types, start, end);
  }

  /**
   * With terms that map to obligation types, the obligations are those of the types with a
   * positive price; the ARR stands in only when there are none.
   */
  lemma IdentifiedByType(contract: ContractInput, now: Day)
    requires Identified(contract, now).Success?
    ensures var (start, end) := (ServiceStart(contract, now), ServiceEnd(contract, now));
      var (obligations, types) := (Identified(contract, now).value, Distinct(TypesOf(contract.terms)));
      ByType(obligations, contract, types, start, end) ||
      (&& obligations == CreateDefaultObligation(contract, start, end)
       && forall t :: t in types ==> PriceOf(Filter(OfType(t), contract.terms), contract.arr) <= 0.0)
  {
    hide AddYears, OfType, PriceOf, TypesOf, Filter, FromType, ObligationsFrom, CreateDefaultObligation;
    var start, end := ServiceStart(contract, now), ServiceEnd(contract, now);
    var types := Distinct(TypesOf(contract.terms));
    DistinctMembers(TypesOf(contract.terms));
    ObligationsByType(contract, types, start, end);
  }

  // ---------- Where a price comes from ----------

  /** Only subscription terms carry a contract value. */
  lemma {:induction false} ValueOfType(terms: seq<ContractTerm>, t: ObligationType)
    ensures LastValue(Filter(OfType(t), terms)) == if t == Subscription then LastValue(terms) else 0.0
  {
    if terms != [] {
      var k := |terms| - 1;
      ValueOfType(terms[..k], t);
      var rest := Filter(OfType(t), terms[..k]);
      assert (rest + [terms[k]])[..|rest|] == rest;
    }
  }

  lemma {:induction false} ValueMakesSubscription(terms: seq<ContractTerm>)
    requires LastValue(terms) != 0.0
    ensures Subscription in TypesOf(terms)
  {
    var k := |terms| - 1;
    if !HasValue(terms[k]) {
      ValueMakesSubscription(terms[..k]);
    }
  }

  /** So every other obligation is priced at the ARR, and a subscription without a value too. */
  lemma PricedBy(o: IdentifiedObligation, contract: ContractInput, start: Day, end: Day)
    requires FromType(o, contract, start, end)
    ensures o.transactionPrice ==
      if o.obligationType == Subscription && LastValue(contract.terms) != 0.0 then LastValue(contract.terms)
      else contract.arr.GetOr(0.0)
  {
    ValueOfType(contract.terms, o.obligationType);
  }

  // ---------- The term of a contract without an end date ----------

  /** Without an end date every obligation ends a year after it starts, on the same date but for 29 February. */
  lemma DefaultTermIsAYear(contract: ContractInput, now: Day, i: nat)
    requires contract.endDate.None? && Identified(contract, now).Success? && i < |Identified(contract, now).value|
    ensures var o := Identified(contract, now).value[i];
      var (s, e) := (o.serviceStartDate, o.serviceEndDate);
      && s == contract.startDate.GetOr(now)
      && YearOf(e) == YearOf(s) + 1
      && (if MonthOf(s) == 1 && DateOf(s) == 29 then MonthOf(e) == 2 && DateOf(e) == 1
          else MonthOf(e) == MonthOf(s) && DateOf(e) == DateOf(s))
  {
    var start := ServiceStart(contract, now);
    IdentifiedIsSound(contract, now);
    AddYearsIs(start, 1);
    DateWithinMonth(start);
    hide Identified, YearOf, MonthOf, DateOf, AddYears;
    assert Sound(Identified(contract, now).value[i], contract, start, ServiceEnd(contract, now));
    LeapFollowedByCommon(YearOf(start), MonthOf(start), DateOf(start));
  }

  lemma LeapFollowedByCommon(year: int, month: int, date: int)
    requires 0 <= month < 12 && 1 <= date <= LastDate(year, month)
    ensures date <= LastDate(year + 1, month) <==> !(month == 1 && date == 29)
  {
  }

  // ---------- The table of term types ----------

  /** Each obligation type with the term types that belong to it, and no other term type has one. */
  lemma TermTypesOf(termType: string)
    ensures var m := MappingOf(termType);
      && (m.None? <==>
            termType !in ["contract_value", "billing_cadence", "term_length", "support_terms", "usage_terms",
                          "professional_services", "implementation", "one_time_fee", "setup_fee"])
      && (m.Some? && m.value.obligationType == Subscription <==>
            termType in ["contract_value", "billing_cadence", "term_length"])
      && (m.Some? && m.value.obligationType == Support <==> termType == "support_terms")
      && (m.Some? && m.value.obligationType == Usage <==> termType == "usage_terms")
      && (m.Some? && m.value.obligationType == ProfessionalServices <==>
            termType in ["professional_services", "implementation"])
      && (m.Some? && m.value.obligationType == OneTime <==> termType in ["one_time_fee", "setup_fee"])
  {
  }

  /** Subscriptions and support are recognised over time, usage as it occurs, services on completion, fees at once. */
  lemma MethodsOf(termType: string)
    requires MappingOf(termType).Some?
    ensures var (t, how) := (MappingOf(termType).value.obligationType, MappingOf(termType).value.recognitionMethod);
      && (how == StraightLine <==> t == Subscription || t == Support)
      && (how == UsageBased <==> t == Usage)
      && (how == Milestone <==> t == ProfessionalServices)
      && (how == AsInvoiced <==> t == OneTime)
  {
  }

  /** The obligation that stands in for a positive ARR is one subscription over the whole term. */
  lemma DefaultObligationIs(contract: ContractInput, start: Day, end: Day)
    ensures var made := CreateDefaultObligation(contract, start, end);
      if contract.arr.Some? && contract.arr.value > 0.0 then
        && |made| == 1
        && made[0].obligationType == Subscription && made[0].recognitionMethod == StraightLine
        && made[0].transactionPrice == contract.arr.value && made[0].standaloneSellingPrice.None?
        && made[0].serviceStartDate == start && made[0].serviceEndDate == end
        && made[0].sourceTermIds == []
      else made == []
  {
  }
}
