/**
 * The Form class: a sum of integrals kept in canonical order, with lazily
 * computed and cached analyses of its domains, subdomain data and form
 * arguments, form addition, and the replacement of integration domains.
 */
module Forms {
  import opened Wrappers
  import opened FormOrder
  import opened FormAnalysis

  datatype FormError =
    | MissingDomain               // "Each integral in a form must have a uniquely defined integration domain."
    | GeometricDimensionMismatch  // "Expecting all domains and functions in a form to share geometric dimension"
    | SubdomainDataMismatch       // "Integrals in form have different subdomain_data objects."
    | DomainDimensionMismatch     // "Common domain does not share dimensions with form domains."

  /** The right operand of `form + other`. */
  datatype AddOperand =
    | FormOperand(form: Form)
    | NumberOperand(isZero: bool)                 // an int or a float
    | ZeroOperand(hasShapeOrFreeIndices: bool)    // a UFL `Zero`
    | OtherOperand

  datatype AddResult = Sum(form: Form) | NotImplemented

  /** `{ domain: { integral_type: subdomain_data } }` */
  type SubdomainDataMap = map<Domain, map<string, Option<SubdomainData>>>

  /** The geometric dimension shared by a list of domains, if there is exactly one. */
  function GeometricDimensionOf(domains: seq<Domain>): (r: Result<nat, FormError>)
    ensures r.Ok? ==> |domains| > 0 && forall d :: d in domains ==> d.gdim == r.value
    ensures r.Err? ==> |domains| == 0 || exists d, e :: d in domains && e in domains && d.gdim != e.gdim
    ensures r.Err? ==> r.error == GeometricDimensionMismatch
  {
    var gdims := set d | d in domains :: d.gdim;
    UniformGdims(domains);
    if |gdims| == 1 then
      assert domains[0].gdim in gdims;
      assert gdims == {domains[0].gdim} by {
        assert |gdims - {domains[0].gdim}| == 0;
      }
      assert forall d :: d in domains ==> d.gdim in gdims;
      Ok(domains[0].gdim)
    else
      Err(GeometricDimensionMismatch)
  }

  /** Domains that all share the first one's geometric dimension have one geometric dimension. */
  lemma UniformGdims(domains: seq<Domain>)
    ensures (|domains| > 0 && forall d :: d in domains ==> d.gdim == domains[0].gdim) ==>
              (set d | d in domains :: d.gdim) == {domains[0].gdim}
  {
  }

  /**
   * `m` has an entry for each of `domains`, and records, per domain and
   * type, the first non-None subdomain data among the integrals `p`.
   */
  ghost predicate Collected(m: SubdomainDataMap, p: seq<Integral>, domains: seq<Domain>) {
    (forall d :: d in m <==> d in domains) &&
    (forall d, t :: d in m ==> (t in m[d] <==> Present(p, d, t))) &&
    (forall d, t :: d in m && t in m[d] ==> m[d][t] == FirstData(p, d, t))
  }

  /** What `_analyze_subdomain_data` computes for the integrals `s`. */
  ghost predicate DescribesSubdomainData(m: SubdomainDataMap, s: seq<Integral>) {
    Collected(m, s, DistinctDomains(s))
  }

  /** One iteration of `_analyze_subdomain_data`: record the subdomain data of integral `x`. */
  method CollectSubdomainData(ghost p: seq<Integral>, x: Integral, ghost domains: seq<Domain>, m: SubdomainDataMap)
    returns (r: Result<SubdomainDataMap, FormError>)
    requires x.domain.Some? && x.domain.value in domains
    requires !Clash(p) && Collected(m, p, domains)
    ensures r.Err? <==> Clash(p + [x])
    ensures r.Err? ==> r.error == SubdomainDataMismatch
    ensures r.Ok? ==> Collected(r.value, p + [x], domains)
  {
    var d, t := x.domain.value, x.integralType;
    var data := if t in m[d] then m[d][t] else None;
    assert data == FirstData(p, d, t);
    ClashSnoc(p, x);
    if data.None? {
      CollectedFirst(m, p, x, domains);
      return Ok(m[d := m[d][t := x.subdomainData]]);
    } else if x.subdomainData.Some? {
      if data.value.uflId != x.subdomainData.value.uflId {
        return Err(SubdomainDataMismatch);
      }
    }
    CollectedLater(m, p, x, domains);
    return Ok(m);
  }

  /** Recording the data of the first integral on its domain and type keeps the map collected. */
  lemma CollectedFirst(m: SubdomainDataMap, p: seq<Integral>, x: Integral, domains: seq<Domain>)
    requires x.domain.Some? && x.domain.value in domains && Collected(m, p, domains)
    requires FirstData(p, x.domain.value, x.integralType).None?
    ensures Collected(m[x.domain.value := m[x.domain.value][x.integralType := x.subdomainData]], p + [x], domains)
  {
    SubdomainStep(p, x);
  }

  /** Once some data is recorded on a domain and type, later integrals leave the map as it is. */
  lemma CollectedLater(m: SubdomainDataMap, p: seq<Integral>, x: Integral, domains: seq<Domain>)
    requires x.domain.Some? && Collected(m, p, domains)
    requires FirstData(p, x.domain.value, x.integralType).Some?
    ensures Collected(m, p + [x], domains)
  {
    SubdomainStep(p, x);
    assert Present(p, x.domain.value, x.integralType);
  }

  /**
   * The renumbering built so far: integration domain `dn[j]` is `j`, new
   * domain `nd[j]` is `|dn| + j`, and the coefficients keep their numbering.
   */
  ghost predicate RenumberingHolds(r: Renumbering, dn: seq<Domain>, cs: seq<Coefficient>, nd: seq<Domain>) {
    (forall d :: d in r.domains <==> d in dn || d in nd) &&
    (forall j :: 0 <= j < |dn| ==> dn[j] in r.domains && r.domains[dn[j]] == j) &&
    (forall j :: 0 <= j < |nd| ==> nd[j] in r.domains && r.domains[nd[j]] == |dn| + j) &&
    r.coefficients == Numbering(cs)
  }

  /** One iteration of `_compute_renumbering`: number the domain of coefficient `cs[i]` if it is new. */
  method NumberCoefficientDomain(ghost dn: seq<Domain>, ghost cs: seq<Coefficient>, ghost known: set<Domain>,
                                 i: nat, c: Coefficient, r: Renumbering, k: nat)
    returns (r': Renumbering, k': nat)
    requires i < |cs| && cs[i] == c
    requires forall d :: d in known <==> d in dn
    requires RenumberingHolds(r, dn, cs, NewDomains(known, cs[..i])) && k == |dn| + |NewDomains(known, cs[..i])|
    ensures RenumberingHolds(r', dn, cs, NewDomains(known, cs[..i + 1]))
    ensures k' == |dn| + |NewDomains(known, cs[..i + 1])|
  {
    assert cs[..i + 1][..i] == cs[..i];
    assert cs[..i + 1][i] == c;
    ghost var nd := NewDomains(known, cs[..i]);
    if c.domain.Some? && c.domain.value !in r.domains {
      r', k' := r.(domains := r.domains[c.domain.value := k]), k + 1;
      assert NewDomains(known, cs[..i + 1]) == nd + [c.domain.value];
    } else {
      r', k' := r, k;
      assert NewDomains(known, cs[..i + 1]) == nd;
    }
  }

  /**
   * `itg.reconstruct(domain=common)`: the integral on the common domain.  A
   * None keyword argument keeps the integral's own domain.
   */
  function Reconstructed(x: Integral, common: Option<Domain>): (r: Integral)
    ensures common.Some? ==> r.domain == common && r == x.(domain := common)
    ensures common.None? ==> r == x
  {
    if common.None? then x else x.(domain := common)
  }

  /** The integrals with every integration domain replaced by `common`, when there is one. */
  function Rebuilt(s: seq<Integral>, common: Option<Domain>): (r: seq<Integral>)
    ensures |r| == |s|
    ensures forall k :: 0 <= k < |s| ==> r[k] == Reconstructed(s[k], common)
    ensures common.None? ==> r == s
  {
    seq(|s|, k requires 0 <= k < |s| => Reconstructed(s[k], common))
  }

  class Form {
    /** The integrals, in canonical order. */
    const integrals: seq<Integral>
    var integrationDomains: Option<seq<Domain>>
    var domainNumbering: Option<map<Domain, nat>>
    var subdomainData: Option<SubdomainDataMap>
    var arguments: Option<seq<Argument>>
    var coefficients: Option<seq<Coefficient>>
    var coefficientNumbering: Option<map<Coefficient, nat>>

    /** Every integral has a domain and the integrals are in canonical order. */
    ghost predicate Valid() {
      Sorted(integrals) && forall k :: 0 <= k < |integrals| ==> integrals[k].domain.Some?
    }

    predicate NothingCached()
      reads this
    {
      integrationDomains.None? && domainNumbering.None? && subdomainData.None? &&
      arguments.None? && coefficients.None? && coefficientNumbering.None?
    }

    /** The domain caches hold what the domain analysis computes. */
    ghost predicate DomainCachesAgree()
      reads this
    {
      (integrationDomains.Some? ==> integrationDomains.value == DistinctDomains(integrals)) &&
      (domainNumbering.Some? ==> domainNumbering.value == Numbering(DistinctDomains(integrals)))
    }

    /** The subdomain-data cache holds what the subdomain analysis computes. */
    ghost predicate SubdomainCacheAgrees()
      reads this
    {
      subdomainData.Some? ==> !Clash(integrals) && DescribesSubdomainData(subdomainData.value, integrals)
    }

    /** The argument caches are filled together and the numbering matches the coefficients. */
    ghost predicate ArgumentCachesAgree()
      reads this
    {
      (arguments.Some? <==> coefficients.Some?) && (coefficients.Some? <==> coefficientNumbering.Some?) &&
      (coefficients.Some? ==> NoDuplicates(coefficients.value) &&
                              coefficientNumbering.value == Numbering(coefficients.value))
    }

    constructor FromSorted(sorted: seq<Integral>)
      requires Sorted(sorted)
      requires forall k :: 0 <= k < |sorted| ==> sorted[k].domain.Some?
      ensures integrals == sorted && Valid() && NothingCached()
    {
      integrals := sorted;
      integrationDomains := None;
      domainNumbering := None;
      subdomainData := None;
      arguments := None;
      coefficients := None;
      coefficientNumbering := None;
    }

    /** `Form(integrals)`: store the integrals in canonical order; every integral needs a domain. */
    static method New(input: seq<Integral>) returns (r: Result<Form, FormError>)
      ensures r.Err? <==> exists k :: 0 <= k < |input| && input[k].domain.None?
      ensures r.Err? ==> r.error == MissingDomain
      ensures r.Ok? ==> fresh(r.value) && r.value.Valid() && r.value.NothingCached() &&
                        CanonicalOrderOf(r.value.integrals, input) &&
                        multiset(r.value.integrals) == multiset(input)
    {
      var sorted := SortedIntegrals(input);
      if sorted.Err? {
        return Err(MissingDomain);
      }
      SortedHasDomains(sorted.value, input);
      var f := new Form.FromSorted(sorted.value);
      return Ok(f);
    }

    /** `integrals_by_type`: the integrals of one type, in form order. */
    function IntegralsByType(t: string): (r: seq<Integral>)
      ensures r == IntegralsOfType(integrals, t)
      ensures forall x :: x in r <==> x in integrals && x.integralType == t
      ensures forall x :: multiset(r)[x] == if x.integralType == t then multiset(integrals)[x] else 0
      ensures multiset(r) <= multiset(integrals)
    {
      var r := IntegralsOfType(integrals, t);
      assert forall x :: multiset(r)[x] == if x.integralType == t then multiset(integrals)[x] else 0 by {
        forall x
          ensures multiset(r)[x] == if x.integralType == t then multiset(integrals)[x] else 0
        {
          IntegralsOfTypeMultiset(integrals, t, x);
        }
      }
      r
    }

    /** `empty()`: a form is empty exactly when it has no integral of any type. */
    function Empty(): (r: bool)
      ensures r <==> forall t :: IntegralsByType(t) == []
    {
      if integrals == [] then true
      else
        assert integrals[0] in IntegralsByType(integrals[0].integralType);
        false
    }

    /**
     * `equals`: another Form with the same integrals in the same order.  The
     * hash comparison is a shortcut that never changes the answer, since the
     * hash is a function of the integrals.
     */
    function Equals(other: Option<Form>, hash: seq<Integral> -> int): (r: bool)
      ensures r <==> other.Some? && other.value.integrals == integrals
    {
      if other.None? then false
      else if |integrals| != |other.value.integrals| then false
      else if hash(integrals) != hash(other.value.integrals) then false
      else forall k :: 0 <= k < |integrals| ==> integrals[k] == other.value.integrals[k]
    }

    /**
     * `__add__` (and `__radd__`, which calls it): a Form gives a new Form of
     * both forms' integrals re-sorted; a numeric zero, or a `Zero` without
     * shape or free indices, gives this form back; anything else is
     * NotImplemented.
     */
    method Add(other: AddOperand) returns (r: AddResult)
      requires Valid()
      requires other.FormOperand? ==> other.form.Valid()
      ensures other.FormOperand? ==> r.Sum? && fresh(r.form) && r.form.Valid() && r.form.NothingCached() &&
                                     CanonicalOrderOf(r.form.integrals, integrals + other.form.integrals)
      ensures (other.NumberOperand? && other.isZero) || (other.ZeroOperand? && !other.hasShapeOrFreeIndices) ==>
                r == Sum(this)
      ensures (other.OtherOperand? || (other.NumberOperand? && !other.isZero) ||
               (other.ZeroOperand? && other.hasShapeOrFreeIndices)) ==> r == NotImplemented
    {
      match other
      case FormOperand(f) =>
        var both := integrals + f.integrals;
        assert forall k :: 0 <= k < |both| ==> both[k].domain.Some? by {
          forall k | 0 <= k < |both|
            ensures both[k].domain.Some?
          {
            if k >= |integrals| {
              assert both[k] == f.integrals[k - |integrals|];
            }
          }
        }
        var sum := New(both);
        return Sum(sum.value);
      case NumberOperand(isZero) =>
        return if isZero then Sum(this) else NotImplemented;
      case ZeroOperand(hasShapeOrFreeIndices) =>
        return if !hasShapeOrFreeIndices then Sum(this) else NotImplemented;
      case OtherOperand =>
        return NotImplemented;
    }

    /**
     * `_analyze_domains`: the distinct integration domains, which for
     * integrals in canonical order come out in sorted order, and their
     * numbering.
     */
    method AnalyzeDomains()
      modifies this`integrationDomains, this`domainNumbering
      ensures integrationDomains == Some(DistinctDomains(integrals))
      ensures domainNumbering == Some(Numbering(DistinctDomains(integrals)))
    {
      var domains := DistinctDomains(integrals);
      integrationDomains := Some(domains);
      domainNumbering := Some(Numbering(domains));
    }

    /** `ufl_domains()`: the integration domains, analysed on first request. */
    method UflDomains() returns (r: seq<Domain>)
      requires DomainCachesAgree()
      modifies this`integrationDomains, this`domainNumbering
      ensures r == DistinctDomains(integrals) && DomainCachesAgree()
      ensures old(integrationDomains).Some? ==> unchanged(this)
    {
      if integrationDomains.None? {
        AnalyzeDomains();
      }
      return integrationDomains.value;
    }

    /** `domain_numbering()`: each integration domain's position, analysed on first request. */
    method DomainNumbering() returns (r: map<Domain, nat>)
      requires DomainCachesAgree()
      modifies this`integrationDomains, this`domainNumbering
      ensures r == Numbering(DistinctDomains(integrals)) && DomainCachesAgree()
      ensures old(domainNumbering).Some? ==> unchanged(this)
    {
      if domainNumbering.None? {
        AnalyzeDomains();
      }
      return domainNumbering.value;
    }

    /** `geometric_dimension()`: the one geometric dimension of the integration domains. */
    method GeometricDimension() returns (r: Result<nat, FormError>)
      requires DomainCachesAgree()
      modifies this`integrationDomains, this`domainNumbering
      ensures r == GeometricDimensionOf(DistinctDomains(integrals)) && DomainCachesAgree()
    {
      var domains := UflDomains();
      return GeometricDimensionOf(domains);
    }

    /**
     * `_analyze_subdomain_data`: per domain and integral type, keep the first
     * non-None subdomain data; a later one with another id is an error.
     */
    method AnalyzeSubdomainData() returns (r: Result<SubdomainDataMap, FormError>)
      requires Valid() && DomainCachesAgree()
      modifies this`integrationDomains, this`domainNumbering, this`subdomainData
      ensures DomainCachesAgree()
      ensures r.Err? <==> Clash(integrals)
      ensures r.Err? ==> r.error == SubdomainDataMismatch && subdomainData == old(subdomainData)
      ensures r.Ok? ==> subdomainData == Some(r.value) && DescribesSubdomainData(r.value, integrals)
    {
      var domains := UflDomains();
      r := CollectAll(integrals, domains);
      if r.Ok? {
        subdomainData := Some(r.value);
      }
    }

    /** `subdomain_data()`: the subdomain data, analysed on first request. */
    method SubdomainDataOf() returns (r: Result<SubdomainDataMap, FormError>)
      requires Valid() && DomainCachesAgree() && SubdomainCacheAgrees()
      modifies this`integrationDomains, this`domainNumbering, this`subdomainData
      ensures DomainCachesAgree() && SubdomainCacheAgrees()
      ensures r.Err? <==> Clash(integrals)
      ensures r.Ok? ==> DescribesSubdomainData(r.value, integrals)
    {
      if subdomainData.None? {
        r := AnalyzeSubdomainData();
      } else {
        r := Ok(subdomainData.value);
      }
    }

    /**
     * `_analyze_form_arguments`, given what `extract_arguments_and_coefficients`
     * returns for this form: each argument and coefficient once, arguments
     * by number, coefficients by count, the i-th coefficient numbered i.
     */
    method AnalyzeFormArguments(extractedArguments: seq<Argument>, extractedCoefficients: seq<Coefficient>)
      modifies this`arguments, this`coefficients, this`coefficientNumbering
      ensures arguments.Some? && coefficients.Some? && coefficientNumbering.Some?
      ensures forall a :: a in arguments.value <==> a in extractedArguments
      ensures NoDuplicates(arguments.value) && SortedBy(arguments.value, ArgumentNumber)
      ensures forall c :: c in coefficients.value <==> c in extractedCoefficients
      ensures NoDuplicates(coefficients.value) && SortedBy(coefficients.value, CoefficientCount)
      ensures coefficientNumbering.value == Numbering(coefficients.value)
      ensures forall i :: 0 <= i < |coefficients.value| ==> coefficientNumbering.value[coefficients.value[i]] == i
      ensures ArgumentCachesAgree()
    {
      var args := SortUnique(extractedArguments, ArgumentNumber);
      var coeffs := SortUnique(extractedCoefficients, CoefficientCount);
      arguments := Some(args);
      coefficients := Some(coeffs);
      coefficientNumbering := Some(Numbering(coeffs));
      NumberingPositions(coeffs);
    }

    /** `coefficients()`: the sorted coefficients, analysed on first request. */
    method Coefficients(extractedArguments: seq<Argument>, extractedCoefficients: seq<Coefficient>) returns (r: seq<Coefficient>)
      requires ArgumentCachesAgree()
      modifies this`arguments, this`coefficients, this`coefficientNumbering
      ensures ArgumentCachesAgree() && coefficients == Some(r)
      ensures old(coefficients).Some? ==> unchanged(this) && r == old(coefficients).value
      ensures old(coefficients).None? ==> forall c :: c in r <==> c in extractedCoefficients
      ensures old(coefficients).None? ==> SortedBy(r, CoefficientCount)
    {
      if coefficients.None? {
        AnalyzeFormArguments(extractedArguments, extractedCoefficients);
      }
      return coefficients.value;
    }

    /**
     * `_compute_renumbering`: integration domains keep their numbers 0..n-1,
     * coefficients keep theirs, and each coefficient domain that is not yet
     * numbered gets the next number from n on, visiting the coefficients in
     * numbering order.
     */
    method ComputeRenumbering(extractedArguments: seq<Argument>, extractedCoefficients: seq<Coefficient>)
      returns (r: Renumbering)
      requires DomainCachesAgree() && ArgumentCachesAgree()
      modifies this`integrationDomains, this`domainNumbering
      modifies this`arguments, this`coefficients, this`coefficientNumbering
      ensures DomainCachesAgree() && ArgumentCachesAgree() && coefficients.Some?
      ensures RenumberingHolds(r, DistinctDomains(integrals), coefficients.value,
                               NewDomains((set d | d in DistinctDomains(integrals)), coefficients.value))
    {
      var dnMap := DomainNumbering();
      var cs := Coefficients(extractedArguments, extractedCoefficients);
      r := Renumber(DistinctDomains(integrals), dnMap, cs, coefficientNumbering.value);
    }
  }

  /** The loop of `_analyze_subdomain_data` over the integrals `s`, whose domains are among `domains`. */
  method CollectAll(s: seq<Integral>, domains: seq<Domain>) returns (r: Result<SubdomainDataMap, FormError>)
    requires forall k :: 0 <= k < |s| ==> s[k].domain.Some? && s[k].domain.value in domains
    ensures r.Err? <==> Clash(s)
    ensures r.Err? ==> r.error == SubdomainDataMismatch
    ensures r.Ok? ==> Collected(r.value, s, domains)
  {
    var m: SubdomainDataMap := map d | d in domains :: map[];
    var i := 0;
    while i < |s|
      invariant 0 <= i <= |s|
      invariant !Clash(s[..i]) && Collected(m, s[..i], domains)
    {
      assert s[..i + 1] == s[..i] + [s[i]];
      var next := CollectSubdomainData(s[..i], s[i], domains, m);
      if next.Err? {
        ClashGrows(s, i + 1);
        return Err(next.error);
      }
      m := next.value;
      i := i + 1;
    }
    assert s[..i] == s;
    return Ok(m);
  }

  /** The loop of `_compute_renumbering`, given the domain numbering and the coefficient numbering. */
  method Renumber(ghost dn: seq<Domain>, dnMap: map<Domain, nat>, cs: seq<Coefficient>, cnMap: map<Coefficient, nat>)
    returns (r: Renumbering)
    requires NoDuplicates(dn) && dnMap == Numbering(dn)
    requires cnMap == Numbering(cs)
    ensures RenumberingHolds(r, dn, cs, NewDomains((set d | d in dn), cs))
  {
    r := Renumbering(dnMap, cnMap);
    NumberingPositions(dn);
    ghost var known := set d | d in dn;
    var k := |dnMap|;
    assert |dnMap| == |dn| by {
      NoDuplicatesCardinality(dn);
    }
    assert cs[..0] == [];
    var i := 0;
    while i < |cs|
      invariant 0 <= i <= |cs|
      invariant RenumberingHolds(r, dn, cs, NewDomains(known, cs[..i]))
      invariant k == |dn| + |NewDomains(known, cs[..i])|
    {
      r, k := NumberCoefficientDomain(dn, cs, known, i, cs[i], r, k);
      i := i + 1;
    }
    assert cs[..i] == cs;
  }

  /** Form addition is associative: `(a + b) + c` and `a + (b + c)` have the same integrals. */
  lemma AddAssociative(a: seq<Integral>, b: seq<Integral>, c: seq<Integral>,
                       ab: seq<Integral>, bc: seq<Integral>, left: seq<Integral>, right: seq<Integral>)
    requires CanonicalOrderOf(ab, a + b) && CanonicalOrderOf(left, ab + c)
    requires CanonicalOrderOf(bc, b + c) && CanonicalOrderOf(right, a + bc)
    ensures left == right
  {
    forall k
      ensures Filter(left, k) == Filter(right, k)
    {
      calc {
        Filter(left, k);
        Filter(ab + c, k);
        { FilterAppend(ab, c, k); }
        Filter(ab, k) + Filter(c, k);
        { FilterAppend(a, b, k); }
        Filter(a, k) + Filter(b, k) + Filter(c, k);
        { FilterAppend(b, c, k); }
        Filter(a, k) + Filter(bc, k);
        { FilterAppend(a, bc, k); }
        Filter(right, k);
      }
    }
    CanonicalOrderUnique(left, right);
  }

  /** Adding a form without integrals gives back the same integrals. */
  lemma AddEmpty(a: seq<Integral>, sum: seq<Integral>)
    requires Sorted(a) && CanonicalOrderOf(sum, a + [])
    ensures sum == a
  {
    assert a + [] == a;
    SortedIsCanonical(a, sum);
  }

  /**
   * Without a clash, the recorded subdomain data of every integral's domain
   * and type has the id of that integral's own subdomain data.
   */
  lemma SubdomainDataAgrees(m: SubdomainDataMap, s: seq<Integral>, k: int)
    requires !Clash(s) && DescribesSubdomainData(m, s)
    requires 0 <= k < |s| && s[k].domain.Some? && s[k].subdomainData.Some?
    ensures s[k].domain.value in m && s[k].integralType in m[s[k].domain.value]
    ensures var data := m[s[k].domain.value][s[k].integralType];
            data.Some? && data.value.uflId == s[k].subdomainData.value.uflId
  {
    var d, t := s[k].domain.value, s[k].integralType;
    NoClashAgreesWithFirst(s, d, t, k);
    assert d in DistinctDomains(s);
    assert Present(s, d, t);
  }

  /**
   * The renumbering gives distinct domains distinct numbers, all below the
   * number of integration domains plus the number of new domains.
   */
  lemma RenumberedDomainsDistinct(r: Renumbering, dn: seq<Domain>, cs: seq<Coefficient>)
    requires RenumberingHolds(r, dn, cs, NewDomains((set d | d in dn), cs))
    ensures forall d :: d in r.domains ==> r.domains[d] < |dn| + |NewDomains((set d | d in dn), cs)|
    ensures forall d, e :: d in r.domains && e in r.domains && d != e ==> r.domains[d] != r.domains[e]
  {
    var nd := NewDomains((set d | d in dn), cs);
    forall d | d in r.domains
      ensures r.domains[d] < |dn| + |nd|
    {
      RenumberedSlot(r, dn, cs, nd, d);
    }
    forall d, e | d in r.domains && e in r.domains && d != e
      ensures r.domains[d] != r.domains[e]
    {
      RenumberedSlot(r, dn, cs, nd, d);
      RenumberedSlot(r, dn, cs, nd, e);
    }
  }

  /** A renumbered domain sits at its own slot: its position in `dn`, or `|dn|` plus its position in `nd`. */
  lemma RenumberedSlot(r: Renumbering, dn: seq<Domain>, cs: seq<Coefficient>, nd: seq<Domain>, d: Domain)
    requires RenumberingHolds(r, dn, cs, nd) && d in r.domains
    ensures r.domains[d] < |dn| + |nd|
    ensures r.domains[d] < |dn| ==> dn[r.domains[d]] == d
    ensures r.domains[d] >= |dn| ==> nd[r.domains[d] - |dn|] == d
  {
    if d in dn {
      var j :| 0 <= j < |dn| && dn[j] == d;
    } else {
      var j :| 0 <= j < |nd| && nd[j] == d;
    }
  }

  /** A canonical ordering of integrals that all have domains again has only integrals with domains. */
  lemma SortedHasDomains(out: seq<Integral>, input: seq<Integral>)
    requires multiset(out) == multiset(input)
    requires forall k :: 0 <= k < |input| ==> input[k].domain.Some?
    ensures forall k :: 0 <= k < |out| ==> out[k].domain.Some?
  {
    forall k | 0 <= k < |out|
      ensures out[k].domain.Some?
    {
      assert out[k] in multiset(input);
    }
  }

  /** A clash among the first integrals is a clash among all of them. */
  lemma ClashGrows(s: seq<Integral>, i: nat)
    requires i <= |s| && Clash(s[..i])
    ensures Clash(s)
  {
    var p := s[..i];
    var a, b :| 0 <= a < |p| && 0 <= b < |p| && p[a].domain == p[b].domain && p[a].integralType == p[b].integralType &&
                p[a].subdomainData.Some? && p[b].subdomainData.Some? &&
                p[a].subdomainData.value.uflId != p[b].subdomainData.value.uflId;
    assert s[a] == p[a] && s[b] == p[b];
  }

  /** How presence and first data change when one integral is appended. */
  lemma SubdomainStep(p: seq<Integral>, x: Integral)
    ensures forall d, t :: Present(p + [x], d, t) <==> Present(p, d, t) || (x.domain == Some(d) && x.integralType == t)
    ensures forall d, t :: FirstData(p + [x], d, t) ==
              if FirstData(p, d, t).Some? then FirstData(p, d, t)
              else if x.domain == Some(d) && x.integralType == t then x.subdomainData
              else None
  {
    var s := p + [x];
    assert s[..|s| - 1] == p;
    forall d, t
      ensures Present(s, d, t) <==> Present(p, d, t) || (x.domain == Some(d) && x.integralType == t)
    {
      if Present(p, d, t) {
        var k :| 0 <= k < |p| && p[k].domain == Some(d) && p[k].integralType == t;
        assert s[k] == p[k];
      }
      if Present(s, d, t) {
        var k :| 0 <= k < |s| && s[k].domain == Some(d) && s[k].integralType == t;
        if k < |p| {
          assert s[k] == p[k];
        }
      }
      if x.domain == Some(d) && x.integralType == t {
        assert s[|p|] == x;
      }
    }
  }

  /** A sequence without duplicates has as many distinct elements as entries. */
  lemma {:induction false} NoDuplicatesCardinality<T>(s: seq<T>)
    requires NoDuplicates(s)
    ensures |Numbering(s)| == |s|
    decreases |s|
  {
    if |s| > 0 {
      var p := s[..|s| - 1];
      NoDuplicatesCardinality(p);
      assert s[|s| - 1] !in p;
      assert Numbering(s).Keys == Numbering(p).Keys + {s[|s| - 1]};
    }
  }

  /** The loop of `replace_integral_domains`: give each integral the common domain, noting whether any changed. */
  method RebuildIntegrals(s: seq<Integral>, common: Option<Domain>) returns (integrals: seq<Integral>, reconstruct: bool)
    ensures integrals == Rebuilt(s, common)
    ensures reconstruct <==> exists k :: 0 <= k < |s| && s[k].domain != common
  {
    reconstruct := false;
    integrals := [];
    var i := 0;
    while i < |s|
      invariant 0 <= i <= |s| && |integrals| == i
      invariant forall k :: 0 <= k < i ==> integrals[k] == Reconstructed(s[k], common)
      invariant reconstruct <==> exists k :: 0 <= k < i && s[k].domain != common
    {
      var itg := s[i];
      if itg.domain != common {
        itg := Reconstructed(itg, common);
        reconstruct := true;
      }
      integrals := integrals + [itg];
      i := i + 1;
    }
  }

  /**
   * `replace_integral_domains`: give every integral the common domain.  A
   * common domain must share geometric and topological dimension with the
   * form's domains.  The form comes back unchanged when no integral's
   * domain differs from the common one; otherwise a new Form is built from
   * the reconstructed integrals.
   */
  method ReplaceIntegralDomains(form: Form, common: Option<Domain>) returns (r: Result<Form, FormError>)
    requires form.Valid() && form.DomainCachesAgree()
    modifies form`integrationDomains, form`domainNumbering
    ensures form.DomainCachesAgree()
    ensures r.Err? <==> common.Some? &&
                        exists d :: d in DistinctDomains(form.integrals) && (d.gdim != common.value.gdim || d.tdim != common.value.tdim)
    ensures r.Err? ==> r.error == DomainDimensionMismatch
    ensures r.Ok? && r.value == form ==> forall k :: 0 <= k < |form.integrals| ==> form.integrals[k].domain == common
    ensures r.Ok? && r.value != form ==>
              fresh(r.value) && r.value.Valid() && CanonicalOrderOf(r.value.integrals, Rebuilt(form.integrals, common))
    ensures r.Ok? && common.Some? ==> forall k :: 0 <= k < |r.value.integrals| ==> r.value.integrals[k].domain == common
    ensures common.None? ==> r.Ok? && r.value.integrals == form.integrals
    ensures ((forall k :: 0 <= k < |form.integrals| ==> form.integrals[k].domain == common) &&
             (common.None? || forall d :: d in DistinctDomains(form.integrals) ==>
               d.gdim == common.value.gdim && d.tdim == common.value.tdim)) ==> r == Ok(form)
  {
    var domains := form.UflDomains();
    if common.Some? {
      var gdim, tdim := common.value.gdim, common.value.tdim;
      if !(forall d | d in domains :: gdim == d.gdim && tdim == d.tdim) {
        return Err(DomainDimensionMismatch);
      }
    }
    var integrals, reconstruct := RebuildIntegrals(form.integrals, common);
    if reconstruct {
      RebuiltHasDomains(form.integrals, common);
      var rebuilt := Form.New(integrals);
      RebuiltKeepsOrder(form.integrals, common, rebuilt.value.integrals);
      return Ok(rebuilt.value);
    }
    return Ok(form);
  }

  /** Reconstructed integrals keep a domain: the common one, or their own. */
  lemma RebuiltHasDomains(s: seq<Integral>, common: Option<Domain>)
    requires forall k :: 0 <= k < |s| ==> s[k].domain.Some?
    ensures forall k :: 0 <= k < |Rebuilt(s, common)| ==> Rebuilt(s, common)[k].domain.Some?
  {
  }

  /**
   * Sorting the reconstructed integrals puts every one on the common
   * domain, and with no common domain gives back the sorted input.
   */
  lemma RebuiltKeepsOrder(s: seq<Integral>, common: Option<Domain>, out: seq<Integral>)
    requires Sorted(s) && CanonicalOrderOf(out, Rebuilt(s, common))
    ensures common.Some? ==> forall k :: 0 <= k < |out| ==> out[k].domain == common
    ensures common.None? ==> out == s
  {
    if common.None? {
      SortedIsCanonical(s, out);
    } else {
      SameGroupsSameMultiset(out, Rebuilt(s, common));
      forall k | 0 <= k < |out|
        ensures out[k].domain == common
      {
        assert out[k] in multiset(Rebuilt(s, common));
      }
    }
  }
}
