# UFL symbolic front end — a Dafny model

This project models the bookkeeping core of UFL, the Unified Form Language
used to state finite element variational forms. It covers:

- **The expression type registry** (`UflType`, `ufl_type.dfy`). The `ufl_type`
  class decorator registers expression kinds. A `Registry` object holds the
  global tables: the class list, the handler-name set, the typecode counter,
  the two per-type object counters and the language-operator map. Each
  registration resolves the `is_terminal` and `num_ops` traits, partly from base
  classes through `get_base_attr`. It rejects kinds whose hierarchy, slots or
  traits are inconsistent. A class's MRO is a sequence of base records holding
  what each base defines.
- **Indices** (`Indexing`, `indexing.dfy`). `Index` objects draw counts from a
  global counter, modelled as an `IndexCounter` object; index identity is
  object identity. The module also has:
  - `as_index` and `as_index_tuple`, which normalise user input to
    `Index`/`FixedIndex`/`Axis`;
  - `MultiIndex`;
  - `extract_indices`, which classifies entries as fixed, free, repeated or
    axis.
- **Tensor literals** (`Tensors`, `tensors.dfy`). These are the `ListVector`,
  `ListMatrix` and `Tensor` constructors, their rank and free indices, and the
  `Vector`/`Matrix` factories. Expressions are abstract records (rank, set of
  free indices).
- **Forms** (`FormOrder`, `FormAnalysis`, `Forms` in `form_order.dfy`,
  `form_analysis.dfy`, `form.dfy`). The canonical grouping sort of a form's
  integrals by (domain, integral type, subdomain id). The `Form` class with its
  lazily filled caches, covering:
  - the domain and subdomain-data analyses;
  - argument and coefficient numbering;
  - the renumbering used for signatures;
  - form addition and equality;
  - `replace_integral_domains`.
- **The form-data pipeline** (`ComputeFormData`, `compute_form_data.dfy`):
  - degree auto-selection with Python 2 `max` semantics, where None is below
    every number;
  - completion of elements without a domain or degree;
  - per-type subdomain counts;
  - coefficient reduction, which mutates each `IntegralData` group;
  - the element, facet-geometry, geometric-dimension and arity checks, in the
    order `compute_form_data` runs them.
- **Element expansion on product cells** (`FiniteElements`,
  `finiteelement.dfy`). `FiniteElement.__new__` rewrites RTCF, RTCE, NCF, NCE,
  Q and DQ requested on an outer-product cell into trees of enriched, H(div),
  H(curl) and outer-product elements. Any other request gives a plain element.

`Wrappers` (`wrappers.dfy`) holds `Option`, `Result` and `Outcome`, which model
Python's `None` and raised errors. `Ordering` (`ordering.dfy`) is Python's
comparison of strings.

Some operations change state in the source. These are methods on classes
(`Registry`, `IndexCounter`, `Index`, `Form`, `IntegralData`) or methods with
loops, each proved against a specification function. Pure case splits and
comprehensions are functions.

## Model

| member | source | states |
|---|---|---|
| UflType.FirstSet | ufl/core/ufl_type.py:12-19 | The first non-None value of an attribute along the MRO. It is None exactly when no base defines the attribute. When it is some value, the base it comes from is preceded only by bases without it. |
| UflType.GetBaseAttr | ufl/core/ufl_type.py:12-19 | The search loop of `get_base_attr` returns exactly `FirstSet` of the MRO. |
| UflType.CheckHierarchyFrom | ufl/core/ufl_type.py:48-54 | Passes iff every base before `Expr` is an Expr subclass or is explicitly non-abstract. Otherwise it fails at the first such base, with the missing-attribute or not-abstract-subclass error. |
| UflType.MarkedMro | ufl/core/ufl_type.py:45 | The MRO seen by the hierarchy check has the class's own abstractness set first, with every other base unchanged. |
| UflType.FirstWithoutSlots | ufl/core/ufl_type.py:63-67 | None iff every base between the class and `object` has its own `__slots__`. Otherwise it is the name of the first base that lacks them. |
| UflType.CheckSlots | ufl/core/ufl_type.py:57-67 | Passes iff the class is marked `_ufl_noslots_`, or it and every base between it and `object` have `__slots__`. Fails with the missing-slots error exactly when an unmarked class lacks its own slots. Any other failure names the first base between the class and `object` without slots. |
| UflType.ResolveTerminal | ufl/core/ufl_type.py:93-101 | Error iff `is_terminal` is omitted and no base supplies it. Otherwise the stored trait is the explicit argument, even when that is None. |
| UflType.ResolveNumOps | ufl/core/ufl_type.py:104-120 | Resolves `num_ops` in order: the explicit value; 0 for a truthy terminal trait; 1 for `unop`; 2 for `binop` or `rbinop`. Only then does it fall back to the bases. It is None iff all of these are missing. |
| UflType.LateChecks | ufl/core/ufl_type.py:135-147 | Succeeds iff the tables are consistent, the class is abstract or has a resolved `num_ops`, and a terminal class has `num_ops` 0. On success the traits carry the typecode, the handler name, the stored terminal trait and the resolved `num_ops`. |
| UflType.Registry.AddIdentity | ufl/core/ufl_type.py:74-90 | Appends the class and adds its handler name. The typecode is the counter's previous value, and the counter grows by exactly one. |
| UflType.Registry.AddCountersAndOperator | ufl/core/ufl_type.py:123-132 | Appends a 0 to both count lists. Records the language operator only for a non-abstract class that defines one. |
| UflType.Registry.ResolveTraits | ufl/core/ufl_type.py:93-147 | A missing terminal trait raises before the count lists grow. Otherwise both lists grow by one and the result is `LateChecks`. |
| UflType.Registry.Register | ufl/core/ufl_type.py:42-150 | Hierarchy or slots failures leave the registry unchanged. Past them, the class, handler name and typecode are added even if a later check fails. After a consistent registry, the tables stay equal in size iff the handler name is new. On success, the returned typecode indexes the registered class. |
| Indexing.Advance | ufl/indexing.py:13-21 | Without a count, an index takes the counter, which then grows by one. With count c it keeps c, and the counter becomes c+1 when c is at least the counter. The count is always below the new counter. |
| Indexing.Index.constructor | ufl/indexing.py:13-21 | Stores the name and the count from `Advance`, and updates the shared counter. |
| Indexing.FreshCountsIncrease | ufl/indexing.py:15-17 | n indices created without counts get consecutive, strictly increasing counts starting at the counter. |
| Indexing.ExplicitCountIsNeverReused | ufl/indexing.py:18-21 | After `Index(count=c)`, no index created without a count receives c or less. |
| Indexing.AsIndex | ufl/indexing.py:75-85 | Succeeds iff the input is an Index, a FixedIndex, an int or the full slice `[:]`. Indices come back unchanged, an int becomes a FixedIndex and `[:]` becomes Axis. A partial slice and anything else are errors. |
| Indexing.AsIndexRoundTrip | ufl/indexing.py:77-80 | `as_index` returns every Index and FixedIndex it is given unchanged. It rejects an Axis object. |
| Indexing.EntryCheck | ufl/indexing.py:102-110 | An Ellipsis entry is always rejected; any other entry goes through `as_index`. |
| Indexing.ConvertAll | ufl/indexing.py:102-110 | Succeeds iff every entry converts, giving the converted entries in order. On failure the error is that of the first failing entry. |
| Indexing.FirstErrorStands | ufl/indexing.py:102-110 | Once a prefix fails to convert, the whole tuple fails with the same error. |
| Indexing.Axes | ufl/indexing.py:113 | max(0, n) copies of Axis. |
| Indexing.AsIndexTuple | ufl/indexing.py:88-114 | Succeeds iff every entry converts. The result is max(0, rank−n) leading Axis followed by the n converted entries, so its length is max(rank, n). |
| Indexing.NewMultiIndex | ufl/indexing.py:145-166 | A MultiIndex exists iff `as_index_tuple` succeeds. Its indices are max(0, rank−n) leading Axis followed by the n converted entries, so its length is max(rank, n). On failure the error is that of the first entry that does not convert. |
| Indexing.FixedOfOrdered | ufl/indexing.py:121 | The fixed list holds exactly the (position, value) pairs of the FixedIndex entries, in increasing position order. |
| Indexing.CountingIdentity | ufl/indexing.py:141 | When no index occurs more than twice: #fixed + #(indices occurring once) + 2·#(indices occurring twice) + #Axis = length. |
| Indexing.ExtractIndices | ufl/indexing.py:117-143 | Rejects the tuple iff some Index occurs more than twice. Otherwise: the fixed list is `FixedOf`; the free indices are exactly those occurring once; the repeated ones are exactly those occurring twice; the counting identity holds. |
| Tensors.ScalarScan | ufl/tensors.py:18 | Passes iff every entry is a rank-0 expression. Otherwise it reports the error of the first entry that is not. |
| Tensors.NewListVector | ufl/tensors.py:16-31 | Succeeds iff the value is a non-empty list of scalar expressions that all share the first entry's free indices. Then it has rank 1, the first entry's free indices, and the entries in order. The errors are: not a list, the first non-scalar entry, an empty list, or mismatched free indices. |
| Tensors.RowsScan | ufl/tensors.py:49 | Passes iff every entry of every row is scalar. Otherwise it reports the error of the first entry, in row-major order, that is not. |
| Tensors.AlignedListMatrix | ufl/tensors.py:49-55 | For aligned rows: succeeds iff all entries are scalar, the rows are non-empty and all free-index sets equal entry [0][0]'s. Otherwise it raises at the first non-scalar entry, then on zero-width rows, then on a free-index mismatch. |
| Tensors.NewListMatrix | ufl/tensors.py:41-62 | Succeeds iff the value is a non-empty list of equally long, non-empty lists of scalar expressions, all with the free indices of entry [0][0]. Then it has rank 2 and keeps the rows. Otherwise the errors come in the source's order: not a list, not a list of lists, no rows, rows of unequal length (exactly then), first non-scalar entry in row-major order, zero-width rows, free-index mismatch. |
| Tensors.NewTensor | ufl/tensors.py:75-92 | Succeeds iff the expression is scalar, every index is an `Index`, and the indices are a subset of its free indices. Its rank is the number of indices and its free indices are the expression's minus the given ones. Each failure gets the error of the first check that fails. |
| Tensors.Vector | ufl/tensors.py:101-104 | Without an index it builds a ListVector; with index i it builds a Tensor over (i,). |
| Tensors.Matrix | ufl/tensors.py:107-110 | Without indices it builds a ListMatrix; with indices it builds a Tensor over them. |
| Tensors.MatrixRowsAreVectors | ufl/tensors.py:41-59 | Every row of a valid ListMatrix is a valid ListVector with the matrix's free indices and the row's entries. |
| Tensors.VectorsMakeMatrix | ufl/tensors.py:41-59 | Equally long rows that are valid ListVectors with the same free indices form a valid ListMatrix with those free indices. |
| Tensors.TensorOverAllFreeIndices | ufl/tensors.py:80-89 | A Tensor over all of a scalar's free indices is valid, has rank equal to the number of indices and has no free indices left. |
| Ordering.StrLessIrreflexive | ufl/form.py:60 | No string sorts before itself. |
| Ordering.StrLessTransitive | ufl/form.py:60 | String order is transitive. |
| Ordering.StrLessTotal | ufl/form.py:60 | Any two different strings are ordered one way or the other. |
| Ordering.StrLessAsymmetric | ufl/form.py:60 | Two strings are never each before the other. |
| FormOrder.KeyLessTransitive | ufl/form.py:59-61 | The order on (domain, type, subdomain id) keys is transitive. |
| FormOrder.KeyLessTotal | ufl/form.py:59-61 | Any two different keys are ordered one way or the other. |
| FormOrder.KeyLessIrreflexive | ufl/form.py:59-61 | No key sorts before itself. |
| FormOrder.KeyLessAsymmetric | ufl/form.py:59-61 | Two keys are never each before the other. |
| FormOrder.LeastKeyExists | ufl/form.py:59-61 | Every non-empty set of keys has a least element, so the nested sorted loops are well defined. |
| FormOrder.FilterAppend | ufl/form.py:54 | The group of a key in a concatenation is the first sequence's group followed by the second's. |
| FormOrder.FilterMultiset | ufl/form.py:54 | A group holds each integral with its key as often as the input does, and nothing else. |
| FormOrder.SameGroupsSameMultiset | ufl/form.py:56-70 | Sequences with the same group for every key are permutations of each other. |
| FormOrder.GroupByKey | ufl/form.py:46-54 | Error iff some integral has no domain. Otherwise every key that occurs maps to its integrals in input order, and only such keys appear. |
| FormOrder.EmitInKeyOrder | ufl/form.py:56-70 | Emitting the groups, least key first, gives output in sorted key order whose group for every key is the input's group for that key. |
| FormOrder.SortedIntegrals | ufl/form.py:42-70 | Error iff some integral has no domain. Otherwise the output is a permutation of the input, sorted by key, with input order kept within each group. |
| FormOrder.CanonicalOrderUnique | ufl/form.py:59-67 | Two sorted sequences with the same groups are equal, so the canonical order of an input is unique. |
| FormOrder.SortedIsCanonical | ufl/form.py:42-70 | Re-sorting integrals that are already in canonical order leaves them unchanged. |
| FormAnalysis.IntegralsOfType | ufl/form.py:125-128 | Holds exactly the integrals of the given type. |
| FormAnalysis.IntegralsOfTypeSingle | ufl/form.py:125-128 | A single integral is kept exactly when it has the type. |
| FormAnalysis.IntegralsOfTypeAppend | ufl/form.py:125-128 | Selecting a type distributes over concatenation. With the single-integral case, this makes the selection the order-preserving filter on the type. |
| FormAnalysis.IntegralsOfTypeMultiset | ufl/form.py:125-128 | The filter keeps each integral of the type as many times as it occurs and drops all others. |
| FormAnalysis.CanonicalOrderKeepsTypes | ufl/form.py:97-128 | Sorting does not change which integrals of each type a form has. |
| FormAnalysis.DistinctDomains | ufl/form.py:332-339 | Holds each integration domain of the integrals exactly once. |
| FormAnalysis.DistinctDomainsIncrease | ufl/form.py:336-339 | For integrals in canonical order, the distinct domains come out strictly increasing, the order this model assumes for `sort_domains`. |
| FormAnalysis.DomainOrderTotal | ufl/form.py:336-339 | Any two different domains are ordered one way or the other, so sorting them is well defined. |
| FormAnalysis.Numbering | ufl/form.py:342 | Maps exactly the elements of a sequence, each to a position holding it. |
| FormAnalysis.NumberingPositions | ufl/form.py:375 | Without duplicates, the i-th element is numbered i. |
| FormAnalysis.FirstData | ufl/form.py:353-362 | The first non-None subdomain data among the integrals on a domain and type, or None when all of them have None. |
| FormAnalysis.NoClashAgreesWithFirst | ufl/form.py:360-364 | Without a clash, every data on a domain and type has the id of the first. |
| FormAnalysis.ClashSnoc | ufl/form.py:360-364 | Appending an integral to clash-free integrals creates a clash iff its data is set and differs in id from the first data recorded for its domain and type. |
| FormAnalysis.SortUnique | ufl/form.py:373-374 | `sorted(set(s), key)` holds each element of the input once, with keys non-decreasing. |
| FormAnalysis.SortSet | ufl/algorithms/compute_form_data.py:246 | Sorting a set gives its elements once each, with keys non-decreasing. |
| FormAnalysis.SortedByDistinctKeysUnique | ufl/form.py:374 | When keys are distinct, as coefficient counts are, the sorted sequence is fully determined. |
| FormAnalysis.NewDomains | ufl/form.py:385-391 | The coefficient domains not among the known domains, each once. |
| Forms.GeometricDimensionOf | ufl/form.py:181-186 | Returns the common geometric dimension of all domains. It is an error iff there are no domains or two of them differ. |
| Forms.CollectSubdomainData | ufl/form.py:353-364 | One loop step. It is an error iff the new integral creates a clash; otherwise the map records the first data per domain and type. |
| Forms.CollectAll | ufl/form.py:344-365 | The subdomain-data loop is an error iff two integrals on one domain and type carry data with different ids. Otherwise it maps every domain to the first data per integral type present. |
| Forms.NumberCoefficientDomain | ufl/form.py:387-391 | One loop step numbers a new coefficient domain with the next free number and keeps the renumbering invariant. |
| Forms.Renumber | ufl/form.py:377-393 | Integration domain j gets j and the coefficients keep their numbers. The i-th new coefficient domain gets n+i. No other domain is numbered. |
| Forms.Form.New | ufl/form.py:92-117 | An error iff some integral has no domain. Otherwise it gives a fresh form with empty caches whose integrals are the input's canonical order and a permutation of it. |
| Forms.Form.IntegralsByType | ufl/form.py:125-128 | It is the order-preserving filter of the form's integrals on the type. It keeps every integral of the type exactly as often as the form has it, and no other. |
| Forms.Form.Empty | ufl/form.py:134-136 | A form is empty iff it has no integral of any type. |
| Forms.Form.Equals | ufl/form.py:251-259 | True iff the other object is a form with the same integrals in the same order; the hash shortcut never changes the answer. |
| Forms.Form.Add | ufl/form.py:261-280 | Adding a form gives a fresh form in canonical order of both forms' integrals. Adding 0, or a `Zero` without shape or free indices, gives this form; anything else is NotImplemented. |
| Forms.AddAssociative | ufl/form.py:265-268 | (a+b)+c and a+(b+c) have the same integrals. |
| Forms.AddEmpty | ufl/form.py:265-268 | Adding a form without integrals gives back the same integrals. |
| Forms.Form.AnalyzeDomains | ufl/form.py:332-342 | Caches the distinct integration domains and their numbering. |
| Forms.Form.UflDomains | ufl/form.py:142-151 | Returns the distinct integration domains and keeps the caches in agreement. A filled cache is reused without change. |
| Forms.Form.DomainNumbering | ufl/form.py:188-192 | Returns the numbering of the distinct integration domains, reusing a filled cache without change. |
| Forms.Form.GeometricDimension | ufl/form.py:181-186 | Returns the geometric dimension of the form's integration domains, or the dimension-mismatch error. |
| Forms.Form.AnalyzeSubdomainData | ufl/form.py:344-365 | An error iff two integrals on the same domain and type carry data with different ids. Otherwise it caches, for every domain, the first data per type. |
| Forms.Form.SubdomainDataOf | ufl/form.py:194-198 | Returns, from the cache if filled, the subdomain data map, or the mismatch error exactly when there is a clash. |
| Forms.SubdomainDataAgrees | ufl/form.py:353-364 | In a successful analysis, the recorded data for each integral's domain and type has that integral's id. |
| Forms.Form.AnalyzeFormArguments | ufl/form.py:367-375 | Arguments are deduplicated and sorted by number, coefficients by count, and the i-th coefficient is numbered i. |
| Forms.Form.Coefficients | ufl/form.py:212-216 | Returns the cached coefficients, or analyses them on first request. |
| Forms.Form.ComputeRenumbering | ufl/form.py:377-393 | The renumbering keeps domain numbers 0..n−1 and the coefficient numbers, and numbers each new coefficient domain from n in coefficient order. |
| Forms.RenumberedDomainsDistinct | ufl/form.py:377-393 | Every domain number is below n plus the number of new domains, and different domains get different numbers. |
| Forms.Reconstructed | ufl/form.py:428 | `reconstruct(domain=common)` puts the integral on the common domain. With None it keeps the integral's own domain. |
| Forms.Rebuilt | ufl/form.py:425-430 | Each integral reconstructed on the common domain; with no common domain, the integrals unchanged. |
| Forms.RebuildIntegrals | ufl/form.py:423-430 | The loop yields `Rebuilt`. It reports a reconstruction iff some integral's domain differs from the common one. |
| Forms.ReplaceIntegralDomains | ufl/form.py:407-433 | Fails iff a common domain differs in geometric or topological dimension from a form domain. When no integral's domain differs, the same form is returned. Otherwise a fresh form is returned: the canonical order of the rebuilt integrals, every one on the common domain. A None common domain gives a form with the same integrals. |
| Forms.RebuiltKeepsOrder | ufl/form.py:431-433 | The form built from the rebuilt integrals has every integral on the common domain. Without a common domain it has the original integrals in their original order. |
| ComputeFormData.Py2Max | ufl/algorithms/compute_form_data.py:60 | Python 2 `max` with None below every number: the result is one of the arguments, is None only when both are None, and is at least each present value. |
| ComputeFormData.MaxDegree | ufl/algorithms/compute_form_data.py:60 | None iff no element declares a degree. Otherwise it is a declared degree that is at least every declared degree. |
| ComputeFormData.AutoSelectDegree | ufl/algorithms/compute_form_data.py:51-69 | At least 1 and at least every declared degree. It is 1 or a declared degree, and 1 when none is declared. |
| ComputeFormData.CompleteElement | ufl/algorithms/compute_form_data.py:85-109 | An error iff the element lacks a domain and the form does not have exactly one. A missing domain becomes the form's domain and a missing degree the common degree. A complete element maps to itself. |
| ComputeFormData.CompleteElementIdempotent | ufl/algorithms/compute_form_data.py:85-109 | A completed element is complete: completing it again changes nothing. |
| ComputeFormData.ComputeElementMapping | ufl/algorithms/compute_form_data.py:71-111 | An error iff some element lacks a domain and the form does not have exactly one domain. Otherwise there is a key for every element, mapped to its completion. |
| ComputeFormData.ComputeNumSubDomains | ufl/algorithms/compute_form_data.py:113-124 | Keys are exactly the integral types. Each value is the maximum over the type's groups of id+1 for int ids and 0 for string ids. |
| ComputeFormData.IntegrandCoefficients | ufl/algorithms/compute_form_data.py:236-238 | The union of the coefficient sets of a group's integrands. |
| ComputeFormData.CollectIntegralCoefficients | ufl/algorithms/compute_form_data.py:235-239 | Sets a group's integral coefficients to that union. |
| ComputeFormData.CollectAllIntegralCoefficients | ufl/algorithms/compute_form_data.py:235-239 | Every group gets its integral coefficients. |
| ComputeFormData.UnionOfGroups | ufl/algorithms/compute_form_data.py:243-245 | The union of all groups' integral coefficients. |
| ComputeFormData.OriginalPositions | ufl/algorithms/compute_form_data.py:248-249 | Exactly the positions of form coefficients that survive reduction, strictly increasing. |
| ComputeFormData.EnableCoefficients | ufl/algorithms/compute_form_data.py:252-254 | Each group's enabled mask has one entry per reduced coefficient, true exactly where that coefficient is in the group's set. The integral coefficients are left as they were. |
| ComputeFormData.ReduceCoefficients | ufl/algorithms/compute_form_data.py:235-254 | The reduced coefficients are the union of the groups' sets, once each, sorted by count. The positions and enabled masks match them. |
| ComputeFormData.CheckFacetGeometry | ufl/algorithms/compute_form_data.py:141-150 | Passes iff every group whose type does not contain "facet" has no facet-quantity class. Otherwise it names the type of the first failing group. |
| ComputeFormData.CheckElements | ufl/algorithms/compute_form_data.py:134-139 | Passes iff every element has a domain and a family. Otherwise it reports the first element lacking either, with the domain check first. |
| ComputeFormData.CheckFormArity | ufl/algorithms/compute_form_data.py:152-156 | Passes iff the set of arities has exactly one element. |
| ComputeFormData.Compute | ufl/algorithms/compute_form_data.py:159-281 | Fails on a geometric-dimension mismatch, then on an element without a unique domain. After those, the element check, the facet check and the arity check fail in that order, and the result exists iff all three pass. On success: the rank is the number of arguments; every sub-element maps to its completion with the auto-selected degree; the coefficients are reduced, sorted by count and enabled per group; the original positions are the surviving ones, increasing; each type's subdomain count is the largest contribution of its groups. |
| FiniteElements.NewElement | ufl/finiteelement/finiteelement.py:42-125 | A domain without a cell is rejected; a rejected description is the invalid-description error. Any other family, or a cell that is not an outer product, gives the plain element of the canonical family and degree, on the given domain, with the given form degree. An expandable family on a product cell is rewritten by `ExpandOnProduct`. No result leaves an expandable plain element on a product cell. |
| FiniteElements.ExpandOnProduct | ufl/finiteelement/finiteelement.py:61-118 | RTCF/RTCE need two interval factors, and NCF/NCE need (quadrilateral, interval); otherwise the result is the wrong-factor-cells error. Without a degree these families fail. Q and DQ give an outer product on the domain. |
| FiniteElements.ExpandRaviartThomas | ufl/finiteelement/finiteelement.py:71-80 | Succeeds iff there is a degree k and both the CG_k and DG_{k−1} interval elements can be built. It then gives an enriched element. |
| FiniteElements.ExpandNedelecFace | ufl/finiteelement/finiteelement.py:82-93 | Gives an enriched element and fails without a degree; its tree is stated by `NedelecFaceTree`. |
| FiniteElements.ExpandNedelecEdge | ufl/finiteelement/finiteelement.py:95-106 | Gives an enriched element and fails without a degree; its tree is stated by `NedelecEdgeTree`. |
| FiniteElements.ExpandFactors | ufl/finiteelement/finiteelement.py:108-118 | Gives an outer product on the requested domain; its factors are stated by `QAndDQTree`. |
| FiniteElements.RTCEIsCurlOfRTCF | ufl/finiteelement/finiteelement.py:71-80 | RTCE succeeds iff RTCF does, and is RTCF with H(curl) in place of H(div). |
| FiniteElements.RTCFHalvesMirror | ufl/finiteelement/finiteelement.py:67-80 | RTCF and RTCE succeed iff both factor cells are intervals, there is a degree k, and CG_k and DG_{k−1} can be built. The two halves are then CG_k (form degree 0) ⊗ DG_{k−1} (form degree 1) and the same two elements swapped. |
| FiniteElements.NedelecFaceTree | ufl/finiteelement/finiteelement.py:82-93 | NCF succeeds iff the factor cells are (quadrilateral, interval), there is a degree k, and the four factor elements are built. It is then the H(div) sum of RTCF_k (form degree 1) ⊗ DG_{k−1} (form degree 1) and DQ_{k−1} (form degree 2) ⊗ CG_k (form degree 0). |
| FiniteElements.NedelecEdgeTree | ufl/finiteelement/finiteelement.py:95-106 | NCE succeeds iff the factor cells are (quadrilateral, interval), there is a degree k, and the four factor elements are built. It is then the H(curl) sum of Q_k (form degree 0) ⊗ DG_{k−1} (form degree 1) and RTCE_k (form degree 1) ⊗ CG_k (form degree 0). |
| FiniteElements.QAndDQTree | ufl/finiteelement/finiteelement.py:108-118 | On any product cell, nested ones included, Q and DQ succeed iff both factor elements are built, and are their outer product. Q asks for CG with form degree 0. DQ asks for DG on a simplex and DQ otherwise, with form degree the factor's topological dimension. A product factor is expanded again by its own request. |
| FiniteElements.QAndDQFactors | ufl/finiteelement/finiteelement.py:108-118 | On two simple factor cells, each factor is a plain element on its cell. Q uses CG with form degree 0. DQ uses DG on a simplex and DQ otherwise, with form degree equal to the factor's topological dimension. Each factor carries its request's canonical description. |

## Left out

- Python's `type` machinery is not modelled: the decorator's `setattr` calls, `cls.__dict__` lookups and `issubclass`. Each class is a record of what those lookups give; `camel2underscore` is a parameter of the registry.
- The second decorator `uflcore__ufl_type_decorator_` (ufl/core/ufl_type.py:156-224) is never returned or called, so it is not modelled.
- `Expr` and its tables are not part of this model; the registry holds them as fields.
- The `_ufl_function_` docstring copy (ufl/core/ufl_type.py:126) is not modelled.
- UflType.Registry.Register: the assertions at lines 136-139 are modelled as one consistency flag. The model does not say which of the four assertions fails.
- `Index.__str__`/`__repr__`, `free_indices` and `rank` (which only raise), and the `FixedIndex` integer check are left out. Python's type system is replaced by the input datatype.
- Indexing.ExtractIndices: free and repeated indices are returned as sets, because their order in the source is the unspecified iteration order of a dict. The same holds for `Tensors` free indices, which the source turns into a tuple from a set.
- `as_index_tuple`'s Ellipsis branch never runs, because `found` is never set. The model rejects every Ellipsis, as the source does.
- Integrals carry an opaque integrand. Domains are records (geometric dimension, topological dimension, mesh id) compared in that order: `Domain`'s own comparison and `sort_domains`/`join_domains` are not part of this model.
- Hashing, signatures (`signature`, `_compute_signature`), `__str__`/`__repr__`/LaTeX/PNG rendering, logging and the `_cache` dict are left out.
- Forms.ReplaceIntegralDomains: `Integral.reconstruct` is not part of this model. It is assumed to keep an integral's own domain when given `domain=None`, as UFL's keyword defaults do.
- Forms.Form.Equals: the hash is a function parameter, so the model cannot show a hash collision changing the answer.
- `Form.__sub__`, `__neg__`, `__rmul__` and `__mul__` are left out: they negate or scale integrands or call helpers that are not part of this model.
- `ufl_domain`, `ufl_cell` and the deprecated accessors are left out.
- `max_subdomain_ids` is left out: it reads a field that is not in `__slots__`.
- `as_form` and the `isinstance` check in `Form.__init__` are left out.
- `extract_arguments_and_coefficients` is not part of this model. `AnalyzeFormArguments`, `Coefficients` and `ComputeRenumbering` receive its result as parameters.
- FormAnalysis.SortSet: elements with equal keys may come out in any order. Python's stable sort follows the set's iteration order, which is unspecified.
- Forms.Form.ComputeRenumbering: coefficients are visited in numbering order, since the source iterates over a dict with unspecified order.
- `compute_form_data` takes the passes it calls as inputs: `expand_derivatives`, `propagate_restrictions`, `build_integral_data`, `reconstruct_form_from_integral_data`, `compute_form_arities`, the `extract_*` helpers, `build_coefficient_replace_map` and `unique_tuple`.
- The `change_to_local` block (ufl/algorithms/compute_form_data.py:198-216) is guarded by `False` and is not modelled.
- `_compute_form_data_elements` is not modelled beyond its result, which is an input.
- ComputeFormData.Compute: `FormData` is a datatype built at the end. The source assigns its fields one at a time, which matters only to a caller that catches the error. The function replace map and the preprocessed form are left out.
- `FiniteElement.__init__` is left out: it refers to an undefined `domain` (ufl/finiteelement/finiteelement.py:161). A plain element stores the canonical description instead.
- FiniteElements.NewElement: `as_domain` (ufl/finiteelement/finiteelement.py:54) is not imported by the module, so as written every call with a domain raises NameError there. The model assumes it resolves to UFL's `as_domain` and that the domain's cell is read from it.
- `canonical_element_description` is not part of this model; it is a function parameter, as is the set of simplex cell names.
- Quadrature schemes, value shapes, Sobolev spaces and mappings are left out.
- Cell naming is assumed: every outer-product cell is taken to be named "OuterProductCell".
- The `FiniteElement` calls with the strings "interval" and "quadrilateral" go through `as_domain`. They are modelled as those simple cells.
- `ufl/geometry.py` contributes only the facet or non-facet kind of an expression class. `ufl/all.py` has only imports, and `ufl/checks.py` only warns.
