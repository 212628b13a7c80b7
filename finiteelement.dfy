/**
 * `FiniteElement.__new__`: an element requested on an outer-product cell
 * in one of the families RTCF, RTCE, NCF, NCE, Q or DQ is rewritten into a
 * tree of enriched, H(div), H(curl) and outer-product elements over
 * elements on the factor cells; any other request gives a plain element.
 * The canonical element description (family and degree after aliasing) is
 * a parameter, as is the list of simplex cell names.
 */
module FiniteElements {
  import opened Wrappers

  /** A cell: a named simple cell, or the outer product of two cells. */
  datatype Cell = SimpleCell(name: string, tdim: nat) | ProductCell(a: Cell, b: Cell)
  {
    /** `cellname()`; every outer-product cell is called "OuterProductCell". */
    function CellName(): string {
      if SimpleCell? then name else "OuterProductCell"
    }

    function TopologicalDimension(): nat {
      if SimpleCell? then tdim else a.TopologicalDimension() + b.TopologicalDimension()
    }

    /** The number of cells in the product tree, for termination. */
    function Size(): (n: nat)
      ensures n >= 1
    {
      if SimpleCell? then 1 else 1 + a.Size() + b.Size()
    }
  }

  const Interval := SimpleCell("interval", 1)
  const Quadrilateral := SimpleCell("quadrilateral", 2)

  /** The part of a domain the element construction uses: its cell, which may be missing. */
  datatype ElementDomain = ElementDomain(cell: Option<Cell>)

  /** The canonical family and degree `canonical_element_description` gives. */
  datatype Description = Description(family: string, degree: Option<int>)

  /** `canonical_element_description(family, cell, degree, form_degree)`; None when it rejects the request. */
  type Describe = (string, Option<Cell>, Option<int>, Option<int>) -> Option<Description>

  datatype ElementTree =
    | Plain(family: string, domain: Option<ElementDomain>, degree: Option<int>, formDegree: Option<int>)
    | OuterProduct(left: ElementTree, right: ElementTree, domain: Option<ElementDomain>, formDegree: Option<int>)
    | Enriched(first: ElementTree, second: ElementTree)
    | HDiv(element: ElementTree)
    | HCurl(element: ElementTree)

  datatype ElementError =
    | MissingCell                 // "Missing cell in given domain."
    | InvalidDescription          // rejected by the canonical element description
    | WrongFactorCells(family: string)
    | MissingDegree               // `degree - 1` with no degree

  /** The families `__new__` rewrites on an outer-product cell. */
  predicate Expandable(family: string) {
    family in ["RTCF", "RTCE", "NCF", "NCE", "Q", "DQ"]
  }

  function CellOf(domain: Option<ElementDomain>): Option<Cell> {
    if domain.None? then None else domain.value.cell
  }

  function DomainSize(domain: Option<ElementDomain>): nat {
    if domain.None? || domain.value.cell.None? then 0 else domain.value.cell.value.Size()
  }

  /** `as_domain` of a cell. */
  function On(c: Cell): Option<ElementDomain> {
    Some(ElementDomain(Some(c)))
  }

  /** No plain element left in the tree sits on a product cell in a family that would be rewritten there. */
  predicate FullyExpanded(t: ElementTree) {
    match t
    case Plain(family, domain, _, _) =>
      !(CellOf(domain).Some? && CellOf(domain).value.ProductCell? && Expandable(family))
    case OuterProduct(l, r, _, _) => FullyExpanded(l) && FullyExpanded(r)
    case Enriched(f, s) => FullyExpanded(f) && FullyExpanded(s)
    case HDiv(e) => FullyExpanded(e)
    case HCurl(e) => FullyExpanded(e)
  }

  /**
   * `FiniteElement(family, domain, degree, form_degree)`: reject a domain
   * without a cell, describe the request canonically, and rewrite it on an
   * outer-product cell.
   */
  function NewElement(family: string, domain: Option<ElementDomain>, degree: Option<int>, formDegree: Option<int>,
                      describe: Describe, simplices: set<string>): (r: Result<ElementTree, ElementError>)
    ensures domain.Some? && domain.value.cell.None? ==> r == Err(MissingCell)
    ensures r.Ok? ==> describe(family, CellOf(domain), degree, formDegree).Some?
    ensures r.Ok? ==> FullyExpanded(r.value)
    ensures r.Ok? && r.value.Plain? ==> r.value.family == describe(family, CellOf(domain), degree, formDegree).value.family &&
                                        r.value.domain == domain
    ensures r.Ok? && !r.value.Plain? ==> CellOf(domain).Some? && CellOf(domain).value.ProductCell? &&
                                         Expandable(describe(family, CellOf(domain), degree, formDegree).value.family)
    ensures !(domain.Some? && domain.value.cell.None?) && describe(family, CellOf(domain), degree, formDegree).None? ==>
              r == Err(InvalidDescription)
    // Any other family, or a cell that is not an outer product, gives a plain element of the canonical description.
    ensures var d := describe(family, CellOf(domain), degree, formDegree);
            !(domain.Some? && domain.value.cell.None?) && d.Some? &&
            !(CellOf(domain).Some? && CellOf(domain).value.ProductCell? && Expandable(d.value.family)) ==>
              r == Ok(Plain(d.value.family, domain, d.value.degree, formDegree))
    // An expandable family on an outer-product cell is rewritten.
    ensures var d := describe(family, CellOf(domain), degree, formDegree);
            d.Some? && CellOf(domain).Some? && CellOf(domain).value.ProductCell? && Expandable(d.value.family) ==>
              r == ExpandOnProduct(d.value, domain, CellOf(domain).value, formDegree, describe, simplices)
    decreases DomainSize(domain), 2
  {
    if domain.Some? && domain.value.cell.None? then Err(MissingCell)
    else
      var cell := CellOf(domain);
      match describe(family, cell, degree, formDegree)
      case None => Err(InvalidDescription)
      case Some(desc) =>
        if cell.Some? && cell.value.ProductCell? && Expandable(desc.family) then
          ExpandOnProduct(desc, domain, cell.value, formDegree, describe, simplices)
        else
          Ok(Plain(desc.family, domain, desc.degree, formDegree))
  }

  /** The rewriting of an expandable family on the product cell `cell`. */
  function ExpandOnProduct(desc: Description, domain: Option<ElementDomain>, cell: Cell, formDegree: Option<int>,
                           describe: Describe, simplices: set<string>): (r: Result<ElementTree, ElementError>)
    requires cell.ProductCell? && CellOf(domain) == Some(cell) && Expandable(desc.family)
    ensures r.Ok? ==> FullyExpanded(r.value) && !r.value.Plain?
    ensures (desc.family == "RTCF" || desc.family == "RTCE") ==>
              (r.Ok? ==> cell.a.CellName() == "interval" && cell.b.CellName() == "interval") &&
              (!(cell.a.CellName() == "interval" && cell.b.CellName() == "interval") ==> r == Err(WrongFactorCells(desc.family)))
    ensures (desc.family == "NCF" || desc.family == "NCE") ==>
              (r.Ok? ==> cell.a.CellName() == "quadrilateral" && cell.b.CellName() == "interval") &&
              (!(cell.a.CellName() == "quadrilateral" && cell.b.CellName() == "interval") ==> r == Err(WrongFactorCells(desc.family)))
    ensures desc.family in ["RTCF", "RTCE", "NCF", "NCE"] && desc.degree.None? ==> r.Err?
    ensures desc.family in ["Q", "DQ"] && r.Ok? ==> r.value.OuterProduct? && r.value.domain == domain
    decreases cell.Size(), 1
  {
    if desc.family == "RTCF" || desc.family == "RTCE" then
      if cell.a.CellName() != "interval" || cell.b.CellName() != "interval" then Err(WrongFactorCells(desc.family))
      else ExpandRaviartThomas(desc.family == "RTCF", desc.degree, domain, cell, formDegree, describe, simplices)
    else if desc.family == "NCF" || desc.family == "NCE" then
      if cell.a.CellName() != "quadrilateral" || cell.b.CellName() != "interval" then Err(WrongFactorCells(desc.family))
      else if desc.family == "NCF" then ExpandNedelecFace(desc.degree, domain, cell, formDegree, describe, simplices)
      else ExpandNedelecEdge(desc.degree, domain, cell, formDegree, describe, simplices)
    else if desc.family == "Q" then
      ExpandFactors("CG", "CG", Some(0), Some(0), desc.degree, domain, cell, formDegree, describe, simplices)
    else
      var familyA := if cell.a.CellName() in simplices then "DG" else "DQ";
      var familyB := if cell.b.CellName() in simplices then "DG" else "DQ";
      ExpandFactors(familyA, familyB, Some(cell.a.TopologicalDimension()), Some(cell.b.TopologicalDimension()),
                    desc.degree, domain, cell, formDegree, describe, simplices)
  }

  /**
   * RTCF (`div`) or RTCE: the enriched sum of the H(div), respectively
   * H(curl), outer products of a CG and a DG interval element, in both orders.
   */
  function ExpandRaviartThomas(div: bool, k: Option<int>, domain: Option<ElementDomain>, cell: Cell, formDegree: Option<int>,
                               describe: Describe, simplices: set<string>): (r: Result<ElementTree, ElementError>)
    requires cell.ProductCell?
    ensures r.Ok? ==> FullyExpanded(r.value) && r.value.Enriched? && k.Some?
    ensures k.None? ==> r.Err?
    ensures r.Ok? <==> k.Some? && NewElement("CG", On(Interval), k, Some(0), describe, simplices).Ok? &&
                       NewElement("DG", On(Interval), Some(k.value - 1), Some(1), describe, simplices).Ok?
    decreases cell.Size(), 0
  {
    match NewElement("CG", On(Interval), k, Some(0), describe, simplices)
    case Err(e) => Err(e)
    case Ok(c) =>
      if k.None? then Err(MissingDegree)
      else
        match NewElement("DG", On(Interval), Some(k.value - 1), Some(1), describe, simplices)
        case Err(e) => Err(e)
        case Ok(d) =>
          var cxd := OuterProduct(c, d, domain, formDegree);
          var dxc := OuterProduct(d, c, domain, formDegree);
          if div then Ok(Enriched(HDiv(cxd), HDiv(dxc)))
          else Ok(Enriched(HCurl(cxd), HCurl(dxc)))
  }

  /** NCF: H(div) outer products of RTCF with DG, and of DQ with CG, on a quadrilateral and an interval. */
  function ExpandNedelecFace(k: Option<int>, domain: Option<ElementDomain>, cell: Cell, formDegree: Option<int>,
                             describe: Describe, simplices: set<string>): (r: Result<ElementTree, ElementError>)
    requires cell.ProductCell?
    ensures r.Ok? ==> FullyExpanded(r.value) && r.value.Enriched? && k.Some?
    ensures k.None? ==> r.Err?
    decreases cell.Size(), 0
  {
    match NewElement("RTCF", On(Quadrilateral), k, Some(1), describe, simplices)
    case Err(e) => Err(e)
    case Ok(qc) =>
      if k.None? then Err(MissingDegree)
      else
        match NewElement("DQ", On(Quadrilateral), Some(k.value - 1), Some(2), describe, simplices)
        case Err(e) => Err(e)
        case Ok(qd) =>
          match NewElement("DG", On(Interval), Some(k.value - 1), Some(1), describe, simplices)
          case Err(e) => Err(e)
          case Ok(id) =>
            match NewElement("CG", On(Interval), k, Some(0), describe, simplices)
            case Err(e) => Err(e)
            case Ok(ic) =>
              Ok(Enriched(HDiv(OuterProduct(qc, id, domain, formDegree)), HDiv(OuterProduct(qd, ic, domain, formDegree))))
  }

  /** NCE: H(curl) outer products of Q with DG, and of RTCE with CG, on a quadrilateral and an interval. */
  function ExpandNedelecEdge(k: Option<int>, domain: Option<ElementDomain>, cell: Cell, formDegree: Option<int>,
                             describe: Describe, simplices: set<string>): (r: Result<ElementTree, ElementError>)
    requires cell.ProductCell?
    ensures r.Ok? ==> FullyExpanded(r.value) && r.value.Enriched? && k.Some?
    ensures k.None? ==> r.Err?
    decreases cell.Size(), 0
  {
    match NewElement("Q", On(Quadrilateral), k, Some(0), describe, simplices)
    case Err(e) => Err(e)
    case Ok(qc) =>
      match NewElement("RTCE", On(Quadrilateral), k, Some(1), describe, simplices)
      case Err(e) => Err(e)
      case Ok(qd) =>
        if k.None? then Err(MissingDegree)
        else
          match NewElement("DG", On(Interval), Some(k.value - 1), Some(1), describe, simplices)
          case Err(e) => Err(e)
          case Ok(id) =>
            match NewElement("CG", On(Interval), k, Some(0), describe, simplices)
            case Err(e) => Err(e)
            case Ok(ic) =>
              Ok(Enriched(HCurl(OuterProduct(qc, id, domain, formDegree)), HCurl(OuterProduct(qd, ic, domain, formDegree))))
  }

  /** Q and DQ: the outer product of one element on each factor cell. */
  function ExpandFactors(familyA: string, familyB: string, formDegreeA: Option<int>, formDegreeB: Option<int>,
                         k: Option<int>, domain: Option<ElementDomain>, cell: Cell, formDegree: Option<int>,
                         describe: Describe, simplices: set<string>): (r: Result<ElementTree, ElementError>)
    requires cell.ProductCell?
    ensures r.Ok? ==> FullyExpanded(r.value) && r.value.OuterProduct? && r.value.domain == domain
    decreases cell.Size(), 0
  {
    match NewElement(familyA, On(cell.a), k, formDegreeA, describe, simplices)
    case Err(e) => Err(e)
    case Ok(ea) =>
      match NewElement(familyB, On(cell.b), k, formDegreeB, describe, simplices)
      case Err(e) => Err(e)
      case Ok(eb) => Ok(OuterProduct(ea, eb, domain, formDegree))
  }

  /** The H(curl) counterpart of an H(div) pair. */
  function AsCurl(t: ElementTree): ElementTree {
    match t
    case Enriched(HDiv(x), HDiv(y)) => Enriched(HCurl(x), HCurl(y))
    case _ => t
  }

  /** RTCE is RTCF with H(curl) in place of H(div), and fails exactly when RTCF does. */
  lemma RTCEIsCurlOfRTCF(k: Option<int>, domain: Option<ElementDomain>, cell: Cell, formDegree: Option<int>,
                         describe: Describe, simplices: set<string>)
    requires cell.ProductCell? && CellOf(domain) == Some(cell)
    ensures var div := ExpandOnProduct(Description("RTCF", k), domain, cell, formDegree, describe, simplices);
            var curl := ExpandOnProduct(Description("RTCE", k), domain, cell, formDegree, describe, simplices);
            (div.Ok? <==> curl.Ok?) && (div.Ok? ==> curl.value == AsCurl(div.value))
  {
  }

  /**
   * RTCF and RTCE succeed exactly on (interval, interval) with a degree k
   * and both interval elements built, and the two halves are then the same
   * two interval elements in swapped order: a degree-k CG element of form
   * degree 0 and a degree k-1 DG element of form degree 1.
   */
  lemma RTCFHalvesMirror(desc: Description, domain: Option<ElementDomain>, cell: Cell, formDegree: Option<int>,
                         describe: Describe, simplices: set<string>)
    requires cell.ProductCell? && CellOf(domain) == Some(cell) && (desc.family == "RTCF" || desc.family == "RTCE")
    ensures var r := ExpandOnProduct(desc, domain, cell, formDegree, describe, simplices);
            r.Ok? <==> cell.a.CellName() == "interval" && cell.b.CellName() == "interval" && desc.degree.Some? &&
                       NewElement("CG", On(Interval), desc.degree, Some(0), describe, simplices).Ok? &&
                       NewElement("DG", On(Interval), Some(desc.degree.value - 1), Some(1), describe, simplices).Ok?
    ensures var r := ExpandOnProduct(desc, domain, cell, formDegree, describe, simplices);
            r.Ok? ==>
            var t := r.value;
            var c := NewElement("CG", On(Interval), desc.degree, Some(0), describe, simplices);
            var d := NewElement("DG", On(Interval), Some(desc.degree.value - 1), Some(1), describe, simplices);
            desc.degree.Some? && c.Ok? && d.Ok? &&
            t == (if desc.family == "RTCF"
                  then Enriched(HDiv(OuterProduct(c.value, d.value, domain, formDegree)),
                                HDiv(OuterProduct(d.value, c.value, domain, formDegree)))
                  else Enriched(HCurl(OuterProduct(c.value, d.value, domain, formDegree)),
                                HCurl(OuterProduct(d.value, c.value, domain, formDegree))))
  {
  }

  /**
   * On a product of two simple cells, Q is the outer product of CG elements
   * of form degree 0 on the two factors, and DQ of DG or DQ elements (DG on
   * a simplex) whose form degree is the factor's topological dimension;
   * each factor carries the canonical description of its own request.
   */
  lemma QAndDQFactors(desc: Description, domain: Option<ElementDomain>, cell: Cell, formDegree: Option<int>,
                      describe: Describe, simplices: set<string>)
    requires cell.ProductCell? && cell.a.SimpleCell? && cell.b.SimpleCell? && CellOf(domain) == Some(cell)
    requires desc.family == "Q" || desc.family == "DQ"
    requires ExpandOnProduct(desc, domain, cell, formDegree, describe, simplices).Ok?
    ensures var t := ExpandOnProduct(desc, domain, cell, formDegree, describe, simplices).value;
            var familyA := if desc.family == "Q" then "CG" else if cell.a.name in simplices then "DG" else "DQ";
            var familyB := if desc.family == "Q" then "CG" else if cell.b.name in simplices then "DG" else "DQ";
            var formDegreeA := if desc.family == "Q" then 0 else cell.a.tdim;
            var formDegreeB := if desc.family == "Q" then 0 else cell.b.tdim;
            t.OuterProduct? && t.left.Plain? && t.right.Plain? &&
            t.left.domain == On(cell.a) && t.right.domain == On(cell.b) &&
            t.left.formDegree == Some(formDegreeA) && t.right.formDegree == Some(formDegreeB) &&
            describe(familyA, Some(cell.a), desc.degree, Some(formDegreeA)) == Some(Description(t.left.family, t.left.degree)) &&
            describe(familyB, Some(cell.b), desc.degree, Some(formDegreeB)) == Some(Description(t.right.family, t.right.degree))
  {
    var familyA := if desc.family == "Q" then "CG" else if cell.a.name in simplices then "DG" else "DQ";
    var familyB := if desc.family == "Q" then "CG" else if cell.b.name in simplices then "DG" else "DQ";
    var formDegreeA := if desc.family == "Q" then 0 else cell.a.tdim;
    var formDegreeB := if desc.family == "Q" then 0 else cell.b.tdim;
    assert ExpandOnProduct(desc, domain, cell, formDegree, describe, simplices) ==
           ExpandFactors(familyA, familyB, Some(formDegreeA), Some(formDegreeB), desc.degree, domain, cell, formDegree,
                         describe, simplices);
    var ea := NewElement(familyA, On(cell.a), desc.degree, Some(formDegreeA), describe, simplices);
    var eb := NewElement(familyB, On(cell.b), desc.degree, Some(formDegreeB), describe, simplices);
    assert ea.Ok? && eb.Ok?;
    assert ExpandOnProduct(desc, domain, cell, formDegree, describe, simplices).value == OuterProduct(ea.value, eb.value, domain, formDegree);
  }

  /**
   * Q and DQ on any outer-product cell, nested products included: the outer
   * product of the elements requested on the two factor cells, CG of form
   * degree 0 for Q, and for DQ DG on a simplex and DQ otherwise, of form
   * degree the factor's topological dimension.  A factor that is itself a
   * product cell is expanded again by its own request.
   */
  lemma QAndDQTree(desc: Description, domain: Option<ElementDomain>, cell: Cell, formDegree: Option<int>,
                   describe: Describe, simplices: set<string>)
    requires cell.ProductCell? && CellOf(domain) == Some(cell) && (desc.family == "Q" || desc.family == "DQ")
    ensures var familyA := if desc.family == "Q" then "CG" else if cell.a.CellName() in simplices then "DG" else "DQ";
            var familyB := if desc.family == "Q" then "CG" else if cell.b.CellName() in simplices then "DG" else "DQ";
            var formDegreeA := if desc.family == "Q" then 0 else cell.a.TopologicalDimension();
            var formDegreeB := if desc.family == "Q" then 0 else cell.b.TopologicalDimension();
            var ea := NewElement(familyA, On(cell.a), desc.degree, Some(formDegreeA), describe, simplices);
            var eb := NewElement(familyB, On(cell.b), desc.degree, Some(formDegreeB), describe, simplices);
            var r := ExpandOnProduct(desc, domain, cell, formDegree, describe, simplices);
            (r.Ok? <==> ea.Ok? && eb.Ok?) &&
            (r.Ok? ==> r.value == OuterProduct(ea.value, eb.value, domain, formDegree))
  {
  }

  /**
   * NCF succeeds exactly on (quadrilateral, interval) with a degree k and
   * all four factor elements built, and is then the H(div) sum of RTCF_k
   * (form degree 1) x DG_{k-1} (form degree 1) and DQ_{k-1} (form degree 2)
   * x CG_k (form degree 0).
   */
  lemma NedelecFaceTree(k: Option<int>, domain: Option<ElementDomain>, cell: Cell, formDegree: Option<int>,
                        describe: Describe, simplices: set<string>)
    requires cell.ProductCell? && CellOf(domain) == Some(cell)
    ensures var r := ExpandOnProduct(Description("NCF", k), domain, cell, formDegree, describe, simplices);
            var qc := NewElement("RTCF", On(Quadrilateral), k, Some(1), describe, simplices);
            var ic := NewElement("CG", On(Interval), k, Some(0), describe, simplices);
            r.Ok? <==> cell.a.CellName() == "quadrilateral" && cell.b.CellName() == "interval" && k.Some? &&
                       qc.Ok? && ic.Ok? &&
                       NewElement("DQ", On(Quadrilateral), Some(k.value - 1), Some(2), describe, simplices).Ok? &&
                       NewElement("DG", On(Interval), Some(k.value - 1), Some(1), describe, simplices).Ok?
    ensures var r := ExpandOnProduct(Description("NCF", k), domain, cell, formDegree, describe, simplices);
            r.Ok? ==> k.Some? &&
                      var qc := NewElement("RTCF", On(Quadrilateral), k, Some(1), describe, simplices);
                      var qd := NewElement("DQ", On(Quadrilateral), Some(k.value - 1), Some(2), describe, simplices);
                      var id := NewElement("DG", On(Interval), Some(k.value - 1), Some(1), describe, simplices);
                      var ic := NewElement("CG", On(Interval), k, Some(0), describe, simplices);
                      qc.Ok? && qd.Ok? && id.Ok? && ic.Ok? &&
                      r.value == Enriched(HDiv(OuterProduct(qc.value, id.value, domain, formDegree)),
                                          HDiv(OuterProduct(qd.value, ic.value, domain, formDegree)))
  {
  }

  /**
   * NCE succeeds exactly on (quadrilateral, interval) with a degree k and
   * all four factor elements built, and is then the H(curl) sum of Q_k
   * (form degree 0) x DG_{k-1} (form degree 1) and RTCE_k (form degree 1)
   * x CG_k (form degree 0).
   */
  lemma NedelecEdgeTree(k: Option<int>, domain: Option<ElementDomain>, cell: Cell, formDegree: Option<int>,
                        describe: Describe, simplices: set<string>)
    requires cell.ProductCell? && CellOf(domain) == Some(cell)
    ensures var r := ExpandOnProduct(Description("NCE", k), domain, cell, formDegree, describe, simplices);
            var qc := NewElement("Q", On(Quadrilateral), k, Some(0), describe, simplices);
            var qd := NewElement("RTCE", On(Quadrilateral), k, Some(1), describe, simplices);
            var ic := NewElement("CG", On(Interval), k, Some(0), describe, simplices);
            r.Ok? <==> cell.a.CellName() == "quadrilateral" && cell.b.CellName() == "interval" && k.Some? &&
                       qc.Ok? && qd.Ok? && ic.Ok? &&
                       NewElement("DG", On(Interval), Some(k.value - 1), Some(1), describe, simplices).Ok?
    ensures var r := ExpandOnProduct(Description("NCE", k), domain, cell, formDegree, describe, simplices);
            r.Ok? ==> k.Some? &&
                      var qc := NewElement("Q", On(Quadrilateral), k, Some(0), describe, simplices);
                      var qd := NewElement("RTCE", On(Quadrilateral), k, Some(1), describe, simplices);
                      var id := NewElement("DG", On(Interval), Some(k.value - 1), Some(1), describe, simplices);
                      var ic := NewElement("CG", On(Interval), k, Some(0), describe, simplices);
                      qc.Ok? && qd.Ok? && id.Ok? && ic.Ok? &&
                      r.value == Enriched(HCurl(OuterProduct(qc.value, id.value, domain, formDegree)),
                                          HCurl(OuterProduct(qd.value, ic.value, domain, formDegree)))
  {
  }
}
