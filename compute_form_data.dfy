/**
 * The bookkeeping of `compute_form_data`: degree auto-selection, the
 * element completion map, per-type subdomain counts, the coefficient
 * reduction over integral groups, and the checks on elements, facet
 * geometry and arity.  The symbolic passes it calls (derivative expansion,
 * restriction propagation, grouping into integral data, arity computation,
 * element and coefficient extraction) are not part of this model: their
 * results are inputs.
 */
module ComputeFormData {
  import opened Wrappers
  import opened FormOrder
  import opened FormAnalysis
  import Forms

  /** The parts of a finite element the pipeline inspects; `rest` stands for the rest of its description. */
  datatype Element = Element(family: Option<string>, domain: Option<Domain>, degree: Option<int>, rest: nat)

  /** An expression class found in an integrand, and whether it is a geometric facet quantity. */
  datatype ExprClass = ExprClass(name: string, isFacetQuantity: bool)

  /** What `extract_coefficients` and `extract_classes` give for one integrand. */
  datatype Integrand = Integrand(coefficients: set<Coefficient>, classes: set<ExprClass>)

  datatype DataError =
    | GeometricDimensionMismatch    // "Expecting all integrals in a form to share geometric dimension"
    | NoUniqueElementDomain         // "Cannot replace unknown element domain without unique common domain in form."
    | UndefinedElementDomain(element: Element)
    | UndefinedElementFamily(element: Element)
    | FacetQuantityInNonFacetIntegral(integralType: string)
    | MixedArity                    // "All terms in form must have same rank."

  /** The integrals of one domain, type and subdomain id, as built by `build_integral_data`. */
  class IntegralData {
    const integralType: string
    const subdomainId: SubdomainId
    const integrands: seq<Integrand>
    var integralCoefficients: set<Coefficient>
    var enabledCoefficients: seq<bool>

    constructor(integralType: string, subdomainId: SubdomainId, integrands: seq<Integrand>)
      ensures this.integralType == integralType && this.subdomainId == subdomainId
      ensures this.integrands == integrands
      ensures integralCoefficients == {} && enabledCoefficients == []
    {
      this.integralType := integralType;
      this.subdomainId := subdomainId;
      this.integrands := integrands;
      integralCoefficients := {};
      enabledCoefficients := [];
    }
  }

  // ----- _auto_select_degree

  /** Python 2 `max` of two optional ints, where None is below every int. */
  function Py2Max(a: Option<int>, b: Option<int>): (r: Option<int>)
    ensures r == a || r == b
    ensures r.None? <==> a.None? && b.None?
    ensures r.Some? ==> (a.Some? ==> a.value <= r.value) && (b.Some? ==> b.value <= r.value)
  {
    if a.None? then b
    else if b.None? then a
    else if a.value < b.value then b
    else a
  }

  /** `max([e.degree() for e in elements] or [None])` under Python 2 ordering. */
  function MaxDegree(elements: seq<Element>): (r: Option<int>)
    ensures r.None? <==> forall k :: 0 <= k < |elements| ==> elements[k].degree.None?
    ensures r.Some? ==> exists k :: 0 <= k < |elements| && elements[k].degree == r
    ensures r.Some? ==> forall k :: 0 <= k < |elements| && elements[k].degree.Some? ==> elements[k].degree.value <= r.value
  {
    if |elements| == 0 then None
    else
      var p := elements[..|elements| - 1];
      assert forall k :: 0 <= k < |p| ==> p[k] == elements[k];
      Py2Max(MaxDegree(p), elements[|elements| - 1].degree)
  }

  /**
   * `_auto_select_degree`: the largest declared degree, 1 when no element
   * declares one, and never below 1.
   */
  function AutoSelectDegree(elements: seq<Element>): (r: int)
    ensures r >= 1
    ensures forall k :: 0 <= k < |elements| && elements[k].degree.Some? ==> elements[k].degree.value <= r
    ensures r == 1 || exists k :: 0 <= k < |elements| && elements[k].degree == Some(r)
    ensures (forall k :: 0 <= k < |elements| ==> elements[k].degree.None?) ==> r == 1
  {
    var common := MaxDegree(elements);
    var degree := if common.None? then 1 else common.value;
    if 1 < degree then degree else 1
  }

  // ----- _compute_element_mapping

  /**
   * The replacement of one element: a missing domain becomes the form's
   * only domain (an error unless it has exactly one), a missing degree
   * becomes the common degree, and a complete element stays as it is.
   */
  function CompleteElement(e: Element, formDomains: seq<Domain>, commonDegree: int): (r: Result<Element, DataError>)
    ensures r.Err? <==> e.domain.None? && |formDomains| != 1
    ensures r.Err? ==> r.error == NoUniqueElementDomain
    ensures r.Ok? ==> r.value.domain.Some? && r.value.degree.Some?
    ensures r.Ok? ==> r.value.family == e.family && r.value.rest == e.rest
    ensures r.Ok? ==> (e.domain.Some? ==> r.value.domain == e.domain) && (e.domain.None? ==> r.value.domain == Some(formDomains[0]))
    ensures r.Ok? ==> (e.degree.Some? ==> r.value.degree == e.degree) && (e.degree.None? ==> r.value.degree == Some(commonDegree))
    ensures e.domain.Some? && e.degree.Some? ==> r == Ok(e)
  {
    var domain := if e.domain.None? then (if |formDomains| == 1 then Ok(formDomains[0]) else Err(NoUniqueElementDomain))
                  else Ok(e.domain.value);
    if domain.Err? then Err(domain.error)
    else
      var degree := if e.degree.None? then commonDegree else e.degree.value;
      var reconstruct := e.domain.None? || e.degree.None?;
      if reconstruct then Ok(e.(domain := Some(domain.value), degree := Some(degree))) else Ok(e)
  }

  /** Completing an element a second time leaves it unchanged. */
  lemma CompleteElementIdempotent(e: Element, formDomains: seq<Domain>, commonDegree: int, otherDegree: int)
    requires CompleteElement(e, formDomains, commonDegree).Ok?
    ensures var c := CompleteElement(e, formDomains, commonDegree).value;
            CompleteElement(c, formDomains, otherDegree) == Ok(c)
  {
  }

  /**
   * `_compute_element_mapping`, given the (sub-)elements of the form's
   * arguments and coefficients and the form's domains: every element maps
   * to its completion.
   */
  method ComputeElementMapping(elements: seq<Element>, formDomains: seq<Domain>)
    returns (r: Result<map<Element, Element>, DataError>)
    ensures r.Err? <==> (exists k :: 0 <= k < |elements| && elements[k].domain.None?) && |formDomains| != 1
    ensures r.Err? ==> r.error == NoUniqueElementDomain
    ensures r.Ok? ==> forall e :: e in r.value <==> e in elements
    ensures r.Ok? ==> forall e :: e in r.value ==> Ok(r.value[e]) == CompleteElement(e, formDomains, AutoSelectDegree(elements))
  {
    var commonDegree := AutoSelectDegree(elements);
    var mapping: map<Element, Element> := map[];
    var i := 0;
    while i < |elements|
      invariant 0 <= i <= |elements|
      invariant forall k :: 0 <= k < i ==> elements[k].domain.Some? || |formDomains| == 1
      invariant forall e :: e in mapping <==> e in elements[..i]
      invariant forall e :: e in mapping ==> Ok(mapping[e]) == CompleteElement(e, formDomains, commonDegree)
    {
      var completed := CompleteElement(elements[i], formDomains, commonDegree);
      if completed.Err? {
        return Err(completed.error);
      }
      mapping := mapping[elements[i] := completed.value];
      assert elements[..i + 1] == elements[..i] + [elements[i]];
      i := i + 1;
    }
    assert elements[..i] == elements;
    return Ok(mapping);
  }

  // ----- _compute_num_sub_domains

  /** What an integral group contributes to its type's subdomain count: id + 1, or 0 for a string id. */
  function SubdomainCount(id: SubdomainId): int {
    if id.StrId? then 0 else id.n + 1
  }

  /**
   * `_compute_num_sub_domains`: for each integral type, the largest
   * contribution among the groups of that type.
   */
  method ComputeNumSubDomains(groups: seq<IntegralData>) returns (r: map<string, int>)
    ensures forall t :: t in r <==> exists k :: 0 <= k < |groups| && groups[k].integralType == t
    ensures forall k :: 0 <= k < |groups| ==> SubdomainCount(groups[k].subdomainId) <= r[groups[k].integralType]
    ensures forall t :: t in r ==> exists k :: 0 <= k < |groups| && groups[k].integralType == t &&
                                             SubdomainCount(groups[k].subdomainId) == r[t]
  {
    r := map[];
    var i := 0;
    while i < |groups|
      invariant 0 <= i <= |groups|
      invariant forall t :: t in r <==> exists k :: 0 <= k < i && groups[k].integralType == t
      invariant forall k :: 0 <= k < i ==> SubdomainCount(groups[k].subdomainId) <= r[groups[k].integralType]
      invariant forall t :: t in r ==> exists k :: 0 <= k < i && groups[k].integralType == t &&
                                                 SubdomainCount(groups[k].subdomainId) == r[t]
    {
      var it := groups[i].integralType;
      var contribution := SubdomainCount(groups[i].subdomainId);
      var prev := if it in r then Some(r[it]) else None;
      var m := Py2Max(prev, Some(contribution));
      r := r[it := m.value];
      i := i + 1;
    }
  }

  // ----- coefficient reduction

  /** The coefficients of all integrands of a group. */
  function IntegrandCoefficients(integrands: seq<Integrand>): (r: set<Coefficient>)
    ensures forall c :: c in r <==> exists j :: 0 <= j < |integrands| && c in integrands[j].coefficients
  {
    if |integrands| == 0 then {}
    else
      var p := integrands[..|integrands| - 1];
      assert forall j :: 0 <= j < |p| ==> p[j] == integrands[j];
      IntegrandCoefficients(p) + integrands[|integrands| - 1].coefficients
  }

  /** Set a group's `integral_coefficients` to the coefficients of its integrands. */
  method CollectIntegralCoefficients(g: IntegralData)
    modifies g`integralCoefficients
    ensures g.integralCoefficients == IntegrandCoefficients(g.integrands)
  {
    var itgCoeffs: set<Coefficient> := {};
    var j := 0;
    while j < |g.integrands|
      invariant 0 <= j <= |g.integrands|
      invariant itgCoeffs == IntegrandCoefficients(g.integrands[..j])
    {
      assert g.integrands[..j + 1][..j] == g.integrands[..j];
      itgCoeffs := itgCoeffs + g.integrands[j].coefficients;
      j := j + 1;
    }
    assert g.integrands[..j] == g.integrands;
    g.integralCoefficients := itgCoeffs;
  }

  /** The union of the groups' coefficient sets. */
  ghost function UsedCoefficients(groups: seq<IntegralData>): (r: set<Coefficient>)
    ensures forall c :: c in r <==> exists k :: 0 <= k < |groups| && c in IntegrandCoefficients(groups[k].integrands)
  {
    if |groups| == 0 then {}
    else
      var p := groups[..|groups| - 1];
      assert forall k :: 0 <= k < |p| ==> p[k] == groups[k];
      UsedCoefficients(p) + IntegrandCoefficients(groups[|groups| - 1].integrands)
  }

  /** Each group's `integral_coefficients` holds the coefficients of its integrands. */
  ghost predicate CoefficientsCollected(groups: seq<IntegralData>)
    reads groups
  {
    forall k :: 0 <= k < |groups| ==> groups[k].integralCoefficients == IntegrandCoefficients(groups[k].integrands)
  }

  /**
   * Each group's `enabled_coefficients` has one flag per reduced
   * coefficient, set exactly where the group uses it.
   */
  ghost predicate CoefficientsEnabled(groups: seq<IntegralData>, reduced: seq<Coefficient>)
    reads groups
  {
    forall k :: 0 <= k < |groups| ==>
      |groups[k].enabledCoefficients| == |reduced| &&
      forall j :: 0 <= j < |reduced| ==> (groups[k].enabledCoefficients[j] <==> reduced[j] in groups[k].integralCoefficients)
  }

  /** The first loop of the reduction: fill every group's `integral_coefficients`. */
  method CollectAllIntegralCoefficients(groups: seq<IntegralData>)
    modifies set g | g in groups
    ensures CoefficientsCollected(groups)
  {
    var i := 0;
    while i < |groups|
      invariant 0 <= i <= |groups|
      invariant forall k :: 0 <= k < i ==> groups[k].integralCoefficients == IntegrandCoefficients(groups[k].integrands)
    {
      CollectIntegralCoefficients(groups[i]);
      i := i + 1;
    }
  }

  /** `reduced_coefficients_set`: the union of the groups' `integral_coefficients`. */
  method UnionOfGroups(groups: seq<IntegralData>) returns (r: set<Coefficient>)
    requires CoefficientsCollected(groups)
    ensures r == UsedCoefficients(groups)
  {
    r := {};
    var i := 0;
    while i < |groups|
      invariant 0 <= i <= |groups|
      invariant r == UsedCoefficients(groups[..i])
    {
      assert groups[..i + 1][..i] == groups[..i];
      r := r + groups[i].integralCoefficients;
      i := i + 1;
    }
    assert groups[..i] == groups;
  }

  /** `original_coefficient_positions`: the positions, in order, of the form coefficients that survive. */
  method OriginalPositions(formCoefficients: seq<Coefficient>, reduced: seq<Coefficient>) returns (r: seq<nat>)
    ensures forall i :: i in r <==> 0 <= i < |formCoefficients| && formCoefficients[i] in reduced
    ensures forall a, b :: 0 <= a < b < |r| ==> r[a] < r[b]
  {
    r := [];
    var i := 0;
    while i < |formCoefficients|
      invariant 0 <= i <= |formCoefficients|
      invariant forall j :: j in r <==> 0 <= j < i && formCoefficients[j] in reduced
      invariant forall a, b :: 0 <= a < b < |r| ==> r[a] < r[b]
      invariant forall a :: 0 <= a < |r| ==> r[a] < i
    {
      if formCoefficients[i] in reduced {
        r := r + [i];
      }
      i := i + 1;
    }
  }

  /** The last loop of the reduction: flag, per group, which reduced coefficients it uses. */
  method EnableCoefficients(groups: seq<IntegralData>, reduced: seq<Coefficient>)
    modifies set g | g in groups
    ensures CoefficientsEnabled(groups, reduced)
    ensures forall k :: 0 <= k < |groups| ==> groups[k].integralCoefficients == old(groups[k].integralCoefficients)
  {
    var i := 0;
    while i < |groups|
      invariant 0 <= i <= |groups|
      invariant forall k :: 0 <= k < |groups| ==> groups[k].integralCoefficients == old(groups[k].integralCoefficients)
      invariant forall k :: 0 <= k < i ==>
                  |groups[k].enabledCoefficients| == |reduced| &&
                  forall j :: 0 <= j < |reduced| ==>
                    (groups[k].enabledCoefficients[j] <==> reduced[j] in groups[k].integralCoefficients)
    {
      var g := groups[i];
      var used := g.integralCoefficients;
      g.enabledCoefficients := seq(|reduced|, j requires 0 <= j < |reduced| => reduced[j] in used);
      i := i + 1;
    }
  }

  /**
   * The coefficient reduction of `compute_form_data`: the coefficients used
   * by any group, each once and sorted by count, the positions of the form
   * coefficients among them, and each group's enabled flags.
   */
  method ReduceCoefficients(groups: seq<IntegralData>, formCoefficients: seq<Coefficient>)
    returns (reduced: seq<Coefficient>, positions: seq<nat>)
    modifies set g | g in groups
    ensures CoefficientsCollected(groups) && CoefficientsEnabled(groups, reduced)
    ensures forall c :: c in reduced <==> exists k :: 0 <= k < |groups| && c in groups[k].integralCoefficients
    ensures NoDuplicates(reduced) && SortedBy(reduced, CoefficientCount)
    ensures forall i :: i in positions <==> 0 <= i < |formCoefficients| && formCoefficients[i] in reduced
    ensures forall a, b :: 0 <= a < b < |positions| ==> positions[a] < positions[b]
  {
    CollectAllIntegralCoefficients(groups);
    var used := UnionOfGroups(groups);
    reduced := SortSet(used, CoefficientCount);
    positions := OriginalPositions(formCoefficients, reduced);
    EnableCoefficients(groups, reduced);
  }

  // ----- checks

  /** `"facet"` occurs in `t` at position `i`. */
  predicate FacetAt(t: string, i: int) {
    0 <= i && i + 5 <= |t| && t[i..i + 5] == "facet"
  }

  /** `"facet" in t` */
  predicate ContainsFacet(t: string) {
    exists i :: 0 <= i < |t| && FacetAt(t, i)
  }

  /** A group may contain facet quantities only when its type names a facet integral. */
  predicate FacetGeometryAllowed(g: IntegralData) {
    ContainsFacet(g.integralType) ||
    forall j, c :: 0 <= j < |g.integrands| && c in g.integrands[j].classes ==> !c.isFacetQuantity
  }

  /** `_check_facet_geometry`: the first group that contains a facet quantity outside a facet integral fails. */
  function CheckFacetGeometry(groups: seq<IntegralData>): (r: Outcome<DataError>)
    ensures r.Pass? <==> forall k :: 0 <= k < |groups| ==> FacetGeometryAllowed(groups[k])
    ensures r.Fail? ==> exists k :: 0 <= k < |groups| && !FacetGeometryAllowed(groups[k]) &&
                                    (forall j :: 0 <= j < k ==> FacetGeometryAllowed(groups[j])) &&
                                    r.error == FacetQuantityInNonFacetIntegral(groups[k].integralType)
  {
    if |groups| == 0 then Pass
    else if !FacetGeometryAllowed(groups[0]) then Fail(FacetQuantityInNonFacetIntegral(groups[0].integralType))
    else
      var r := CheckFacetGeometry(groups[1..]);
      assert forall k :: 1 <= k < |groups| ==> groups[k] == groups[1..][k - 1];
      r
  }

  /** `_check_elements`: the first element without a domain, or else without a family, fails. */
  function CheckElements(elements: seq<Element>): (r: Outcome<DataError>)
    ensures r.Pass? <==> forall k :: 0 <= k < |elements| ==> elements[k].domain.Some? && elements[k].family.Some?
    ensures r.Fail? ==> exists k :: 0 <= k < |elements| &&
                                    (forall j :: 0 <= j < k ==> elements[j].domain.Some? && elements[j].family.Some?) &&
                                    r.error == (if elements[k].domain.None? then UndefinedElementDomain(elements[k])
                                                else UndefinedElementFamily(elements[k])) &&
                                    !(elements[k].domain.Some? && elements[k].family.Some?)
  {
    if |elements| == 0 then Pass
    else if elements[0].domain.None? then Fail(UndefinedElementDomain(elements[0]))
    else if elements[0].family.None? then Fail(UndefinedElementFamily(elements[0]))
    else
      var r := CheckElements(elements[1..]);
      assert forall k :: 1 <= k < |elements| ==> elements[k] == elements[1..][k - 1];
      r
  }

  /** `_check_form_arity`: all terms must have the same arity. */
  function CheckFormArity(arities: set<nat>): (r: Outcome<DataError>)
    ensures r.Pass? <==> exists a :: arities == {a}
    ensures r.Fail? ==> r.error == MixedArity
  {
    if |arities| == 1 then
      var a :| a in arities;
      assert arities == {a} by {
        assert |arities - {a}| == 0;
      }
      Pass
    else
      Fail(MixedArity)
  }

  // ----- compute_form_data

  /** What the passes and extractions not modelled here supply. */
  datatype FormDataInput = FormDataInput(
    arguments: nat,                 // len(form.arguments())
    domains: seq<Domain>,           // form.domains()
    subElements: seq<Element>,      // sub-elements of the arguments' and coefficients' elements
    coefficients: seq<Coefficient>, // form.coefficients()
    uniqueElements: seq<Element>,   // after build_coefficient_replace_map and unique_tuple
    uniqueSubElements: seq<Element>,
    arities: set<nat>)              // compute_form_arities of the reconstructed form

  /** The fields of FormData that the pipeline computes. */
  datatype FormData = FormData(
    rank: nat,
    geometricDimension: nat,
    elementReplaceMap: map<Element, Element>,
    reducedCoefficients: seq<Coefficient>,
    numCoefficients: nat,
    originalCoefficientPositions: seq<nat>,
    numSubDomains: map<string, int>)

  /** `compute_form_data`, over the given integral groups, with its checks in the source's order. */
  method Compute(input: FormDataInput, groups: seq<IntegralData>) returns (r: Result<FormData, DataError>)
    modifies set g | g in groups
    ensures Forms.GeometricDimensionOf(input.domains).Err? ==> r == Err(GeometricDimensionMismatch)
    ensures (Forms.GeometricDimensionOf(input.domains).Ok? &&
             (exists k :: 0 <= k < |input.subElements| && input.subElements[k].domain.None?) && |input.domains| != 1) ==>
              r == Err(NoUniqueElementDomain)
    ensures r.Ok? ==> Forms.GeometricDimensionOf(input.domains) == Ok(r.value.geometricDimension)
    ensures r.Ok? ==> CheckElements(input.uniqueElements + input.uniqueSubElements).Pass? &&
                      CheckFacetGeometry(groups).Pass? && CheckFormArity(input.arities).Pass?
    ensures r.Ok? ==> r.value.rank == input.arguments && r.value.numCoefficients == |r.value.reducedCoefficients|
    ensures r.Ok? ==> forall e :: e in r.value.elementReplaceMap <==> e in input.subElements
    ensures r.Ok? ==> forall e :: e in r.value.elementReplaceMap ==>
                        Ok(r.value.elementReplaceMap[e]) == CompleteElement(e, input.domains, AutoSelectDegree(input.subElements))
    ensures r.Ok? ==> CoefficientsCollected(groups) && CoefficientsEnabled(groups, r.value.reducedCoefficients)
    ensures r.Ok? ==> forall c :: c in r.value.reducedCoefficients <==> c in UsedCoefficients(groups)
    ensures r.Ok? ==> NoDuplicates(r.value.reducedCoefficients) && SortedBy(r.value.reducedCoefficients, CoefficientCount)
    ensures r.Ok? ==> forall i :: i in r.value.originalCoefficientPositions <==>
                        0 <= i < |input.coefficients| && input.coefficients[i] in r.value.reducedCoefficients
    ensures r.Ok? ==> forall a, b :: 0 <= a < b < |r.value.originalCoefficientPositions| ==>
                        r.value.originalCoefficientPositions[a] < r.value.originalCoefficientPositions[b]
    ensures r.Ok? ==> forall t :: t in r.value.numSubDomains <==> exists k :: 0 <= k < |groups| && groups[k].integralType == t
    ensures r.Ok? ==> forall k :: 0 <= k < |groups| ==>
                        SubdomainCount(groups[k].subdomainId) <= r.value.numSubDomains[groups[k].integralType]
    ensures r.Ok? ==> forall t :: t in r.value.numSubDomains ==>
                        exists k :: 0 <= k < |groups| && groups[k].integralType == t &&
                                    SubdomainCount(groups[k].subdomainId) == r.value.numSubDomains[t]
    // Past the dimension and element-domain checks: elements first, then facet geometry, then arity.
    ensures Forms.GeometricDimensionOf(input.domains).Ok? &&
            ((forall k :: 0 <= k < |input.subElements| ==> input.subElements[k].domain.Some?) || |input.domains| == 1) ==>
              var elements := CheckElements(input.uniqueElements + input.uniqueSubElements);
              var facets := CheckFacetGeometry(groups);
              var arity := CheckFormArity(input.arities);
              && (elements.Fail? ==> r == Err(elements.error))
              && (elements.Pass? && facets.Fail? ==> r == Err(facets.error))
              && (elements.Pass? && facets.Pass? && arity.Fail? ==> r == Err(MixedArity))
              && (elements.Pass? && facets.Pass? && arity.Pass? ==> r.Ok?)
  {
    var gdim := Forms.GeometricDimensionOf(input.domains);
    if gdim.Err? {
      return Err(GeometricDimensionMismatch);
    }
    var mapping := ComputeElementMapping(input.subElements, input.domains);
    if mapping.Err? {
      return Err(mapping.error);
    }
    var reduced, positions := ReduceCoefficients(groups, input.coefficients);
    var numSubDomains := ComputeNumSubDomains(groups);
    var check := CheckElements(input.uniqueElements + input.uniqueSubElements);
    if check.Fail? {
      return Err(check.error);
    }
    check := CheckFacetGeometry(groups);
    if check.Fail? {
      return Err(check.error);
    }
    check := CheckFormArity(input.arities);
    if check.Fail? {
      return Err(check.error);
    }
    return Ok(FormData(input.arguments, gdim.value, mapping.value, reduced, |reduced|, positions, numSubDomains));
  }
}
