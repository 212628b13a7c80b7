/**
 * The canonical order of a form's integrals: grouped by integration
 * domain, then integral type, then subdomain id, each level in sorted
 * order, with the input order kept inside a group.
 */
module FormOrder {
  import opened Wrappers
  import opened Ordering

  /**
   * An integration domain.  Its own comparison is not part of this model;
   * domains are taken to compare by geometric dimension, topological
   * dimension and mesh id, in that order.
   */
  datatype Domain = Domain(gdim: nat, tdim: nat, meshId: nat)

  /** A subdomain id: an integer or a string such as "everywhere". */
  datatype SubdomainId = IntId(n: int) | StrId(s: string)

  /** Subdomain data, identified by its `ufl_id`. */
  datatype SubdomainData = SubdomainData(uflId: nat)

  /** An integral; the integrand is an opaque expression identity. */
  datatype Integral = Integral(
    integrand: nat,
    domain: Option<Domain>,
    integralType: string,
    subdomainId: SubdomainId,
    subdomainData: Option<SubdomainData>)

  /** The grouping key of an integral. */
  datatype Key = Key(domain: Option<Domain>, integralType: string, subdomainId: SubdomainId)

  function KeyOf(x: Integral): Key {
    Key(x.domain, x.integralType, x.subdomainId)
  }

  predicate DomainLess(a: Domain, b: Domain) {
    a.gdim < b.gdim ||
    (a.gdim == b.gdim && (a.tdim < b.tdim || (a.tdim == b.tdim && a.meshId < b.meshId)))
  }

  predicate OptDomainLess(a: Option<Domain>, b: Option<Domain>) {
    (a.None? && b.Some?) || (a.Some? && b.Some? && DomainLess(a.value, b.value))
  }

  /**
   * Subdomain ids compare by `(type(x).__name__, x)`: every int id comes
   * before every string id ("int" < "str"), and ids of one kind compare
   * by value.
   */
  predicate SubdomainIdLess(a: SubdomainId, b: SubdomainId) {
    match (a, b)
    case (IntId(x), IntId(y)) => x < y
    case (IntId(_), StrId(_)) => true
    case (StrId(_), IntId(_)) => false
    case (StrId(x), StrId(y)) => StrLess(x, y)
  }

  predicate KeyLess(a: Key, b: Key) {
    OptDomainLess(a.domain, b.domain) ||
    (a.domain == b.domain &&
      (StrLess(a.integralType, b.integralType) ||
       (a.integralType == b.integralType && SubdomainIdLess(a.subdomainId, b.subdomainId))))
  }

  lemma KeyLessIrreflexive(a: Key)
    ensures !KeyLess(a, a)
  {
    StrLessIrreflexive(a.integralType);
    if a.subdomainId.StrId? {
      StrLessIrreflexive(a.subdomainId.s);
    }
  }

  lemma KeyLessTransitive(a: Key, b: Key, c: Key)
    requires KeyLess(a, b) && KeyLess(b, c)
    ensures KeyLess(a, c)
  {
    if a.domain == b.domain == c.domain {
      if StrLess(a.integralType, b.integralType) && StrLess(b.integralType, c.integralType) {
        StrLessTransitive(a.integralType, b.integralType, c.integralType);
      } else if a.integralType == b.integralType == c.integralType {
        if a.subdomainId.StrId? && b.subdomainId.StrId? && c.subdomainId.StrId? {
          StrLessTransitive(a.subdomainId.s, b.subdomainId.s, c.subdomainId.s);
        }
      }
    }
  }

  lemma KeyLessTotal(a: Key, b: Key)
    ensures a == b || KeyLess(a, b) || KeyLess(b, a)
  {
    StrLessTotal(a.integralType, b.integralType);
    if a.subdomainId.StrId? && b.subdomainId.StrId? {
      StrLessTotal(a.subdomainId.s, b.subdomainId.s);
    }
  }

  lemma KeyLessAsymmetric(a: Key, b: Key)
    requires KeyLess(a, b)
    ensures !KeyLess(b, a)
  {
    if KeyLess(b, a) {
      KeyLessTransitive(a, b, a);
      KeyLessIrreflexive(a);
    }
  }

  /** Every non-empty finite set of keys has a least element. */
  lemma {:induction false} LeastKeyExists(s: set<Key>)
    requires s != {}
    ensures exists m :: m in s && forall q :: q in s ==> !KeyLess(q, m)
    decreases |s|
  {
    var x :| x in s;
    var rest := s - {x};
    if rest == {} {
      assert s == {x};
      KeyLessIrreflexive(x);
    } else {
      LeastKeyExists(rest);
      var y :| y in rest && forall q :: q in rest ==> !KeyLess(q, y);
      if KeyLess(x, y) {
        forall q | q in s
          ensures !KeyLess(q, x)
        {
          if q == x {
            KeyLessIrreflexive(x);
          } else if KeyLess(q, x) {
            KeyLessTransitive(q, x, y);
          }
        }
      } else {
        assert forall q :: q in s ==> !KeyLess(q, y);
      }
    }
  }

  /** The integrals of `s` with key `k`, in input order. */
  function Filter(s: seq<Integral>, k: Key): (r: seq<Integral>)
    ensures |r| <= |s|
  {
    if |s| == 0 then []
    else Filter(s[..|s| - 1], k) + (if KeyOf(s[|s| - 1]) == k then [s[|s| - 1]] else [])
  }

  /** Integrals are in canonical key order. */
  ghost predicate Sorted(s: seq<Integral>) {
    forall i, j :: 0 <= i < j < |s| ==> !KeyLess(KeyOf(s[j]), KeyOf(s[i]))
  }

  /** `out` is the input regrouped in canonical order with each group kept stable. */
  ghost predicate CanonicalOrderOf(out: seq<Integral>, input: seq<Integral>) {
    Sorted(out) && forall k :: Filter(out, k) == Filter(input, k)
  }

  lemma {:induction false} FilterAppend(a: seq<Integral>, b: seq<Integral>, k: Key)
    ensures Filter(a + b, k) == Filter(a, k) + Filter(b, k)
    decreases |b|
  {
    if |b| > 0 {
      var b' := b[..|b| - 1];
      var last := if KeyOf(b[|b| - 1]) == k then [b[|b| - 1]] else [];
      assert (a + b)[..|a + b| - 1] == a + b';
      assert (a + b)[|a + b| - 1] == b[|b| - 1];
      assert Filter(a + b, k) == Filter(a + b', k) + last;
      assert Filter(b, k) == Filter(b', k) + last;
      FilterAppend(a, b', k);
    } else {
      assert a + b == a;
    }
  }

  /** A filter of a sequence grown by one integral. */
  lemma FilterSnoc(p: seq<Integral>, x: Integral, k: Key)
    ensures Filter(p + [x], k) == Filter(p, k) + (if KeyOf(x) == k then [x] else [])
  {
    assert (p + [x])[..|p|] == p;
  }

  /** A filter keeps exactly the copies of the integrals with that key. */
  lemma {:induction false} FilterMultiset(s: seq<Integral>, k: Key, x: Integral)
    ensures multiset(Filter(s, k))[x] == if KeyOf(x) == k then multiset(s)[x] else 0
    decreases |s|
  {
    if |s| > 0 {
      var p := s[..|s| - 1];
      assert s == p + [s[|s| - 1]];
      FilterMultiset(p, k, x);
    }
  }

  /** Sequences that agree on every group are permutations of each other. */
  lemma SameGroupsSameMultiset(a: seq<Integral>, b: seq<Integral>)
    requires forall k :: Filter(a, k) == Filter(b, k)
    ensures multiset(a) == multiset(b)
  {
    forall x
      ensures multiset(a)[x] == multiset(b)[x]
    {
      FilterMultiset(a, KeyOf(x), x);
      FilterMultiset(b, KeyOf(x), x);
    }
  }

  /** A filter of a sequence whose integrals all have key `m`. */
  lemma {:induction false} FilterUniform(g: seq<Integral>, m: Key, k: Key)
    requires forall j :: 0 <= j < |g| ==> KeyOf(g[j]) == m
    ensures Filter(g, k) == if k == m then g else []
    decreases |g|
  {
    if |g| > 0 {
      FilterUniform(g[..|g| - 1], m, k);
    }
  }

  /** Every integral of a filter has the filter's key. */
  lemma {:induction false} FilterKeys(s: seq<Integral>, k: Key)
    ensures forall j :: 0 <= j < |Filter(s, k)| ==> KeyOf(Filter(s, k)[j]) == k
    decreases |s|
  {
    if |s| > 0 {
      FilterKeys(s[..|s| - 1], k);
    }
  }

  /** A filter is empty exactly when no integral has that key. */
  lemma {:induction false} FilterEmpty(s: seq<Integral>, k: Key)
    ensures Filter(s, k) == [] <==> forall j :: 0 <= j < |s| ==> KeyOf(s[j]) != k
    decreases |s|
  {
    if |s| > 0 {
      FilterEmpty(s[..|s| - 1], k);
    }
  }

  /**
   * _sorted_integrals: group the integrals by key, then emit the groups in
   * increasing key order.
   */
  method SortedIntegrals(s: seq<Integral>) returns (r: Result<seq<Integral>, Key>)
    ensures r.Err? <==> exists j :: 0 <= j < |s| && s[j].domain.None?
    ensures r.Err? ==> r.error.domain.None?
    ensures r.Ok? ==> CanonicalOrderOf(r.value, s)
    ensures r.Ok? ==> multiset(r.value) == multiset(s)
  {
    var groups := GroupByKey(s);
    if groups.Err? {
      return Err(groups.error);
    }
    var out := EmitInKeyOrder(s, groups.value);
    SameGroupsSameMultiset(out, s);
    return Ok(out);
  }

  /** The grouping loop: each key seen maps to its integrals in input order. */
  method GroupByKey(s: seq<Integral>) returns (r: Result<map<Key, seq<Integral>>, Key>)
    ensures r.Err? <==> exists j :: 0 <= j < |s| && s[j].domain.None?
    ensures r.Err? ==> r.error.domain.None?
    ensures r.Ok? ==> GroupsOf(s, r.value)
  {
    var groups: map<Key, seq<Integral>> := map[];
    var i := 0;
    NoGroups(s);
    while i < |s|
      invariant 0 <= i <= |s|
      invariant forall j :: 0 <= j < i ==> s[j].domain.Some?
      invariant GroupsOf(s[..i], groups)
    {
      if s[i].domain.None? {
        return Err(KeyOf(s[i]));
      }
      groups := AddToGroup(s, i, groups);
      i := i + 1;
    }
    assert s[..i] == s;
    return Ok(groups);
  }

  /** Before the grouping loop no integral has been seen. */
  lemma NoGroups(s: seq<Integral>)
    ensures GroupsOf(s[..0], map[])
  {
    assert s[..0] == [];
  }

  /** One iteration of the grouping loop: append `s[i]` to the group of its key. */
  method AddToGroup(s: seq<Integral>, i: nat, groups: map<Key, seq<Integral>>)
    returns (groups': map<Key, seq<Integral>>)
    requires i < |s| && GroupsOf(s[..i], groups)
    ensures GroupsOf(s[..i + 1], groups')
  {
    var x := s[i];
    var kx := KeyOf(x);
    assert s[..i + 1] == s[..i] + [x];
    forall k
      ensures Filter(s[..i + 1], k) == Filter(s[..i], k) + (if kx == k then [x] else [])
    {
      FilterSnoc(s[..i], x, k);
    }
    groups' := groups[kx := (if kx in groups then groups[kx] else []) + [x]];
  }

  /** The emitting loop: the groups one after another, least key first. */
  method EmitInKeyOrder(ghost s: seq<Integral>, groups: map<Key, seq<Integral>>) returns (out: seq<Integral>)
    requires GroupsOf(s, groups)
    ensures CanonicalOrderOf(out, s)
  {
    out := [];
    var remaining := groups.Keys;
    ghost var emitted: set<Key> := {};
    NothingEmitted(s, groups);
    while remaining != {}
      invariant EmitState(s, groups, out, remaining, emitted)
      decreases |remaining|
    {
      out, remaining, emitted := EmitLeastGroup(s, groups, out, remaining, emitted);
    }
    AllEmitted(s, groups, out, emitted);
  }

  /** `groups` maps each key occurring in `s` to the integrals of `s` with that key. */
  ghost predicate GroupsOf(s: seq<Integral>, groups: map<Key, seq<Integral>>) {
    (forall k :: k in groups <==> Filter(s, k) != []) &&
    (forall k :: k in groups ==> groups[k] == Filter(s, k))
  }

  /** The state of the emitting loop: `remaining` are the keys not yet emitted. */
  ghost predicate EmitState(s: seq<Integral>, groups: map<Key, seq<Integral>>, out: seq<Integral>,
                            remaining: set<Key>, emitted: set<Key>) {
    GroupsOf(s, groups) && remaining == groups.Keys - emitted && EmittedInOrder(s, groups, out, emitted)
  }

  /** Before the loop nothing is output, which is trivially in order. */
  lemma NothingEmitted(s: seq<Integral>, groups: map<Key, seq<Integral>>)
    requires GroupsOf(s, groups)
    ensures EmitState(s, groups, [], groups.Keys, {})
  {
  }

  /** When every key has been emitted, the output is the canonical order of the input. */
  lemma AllEmitted(s: seq<Integral>, groups: map<Key, seq<Integral>>, out: seq<Integral>, emitted: set<Key>)
    requires EmitState(s, groups, out, {}, emitted)
    ensures CanonicalOrderOf(out, s)
  {
    forall k | k in groups
      ensures k in emitted
    {
      assert k !in groups.Keys - emitted;
    }
    forall k
      ensures Filter(out, k) == Filter(s, k)
    {
      if k in emitted {
        assert Filter(out, k) == groups[k];
      } else {
        assert Filter(out, k) == [] && k !in groups;
      }
    }
  }

  /** One iteration of the emitting loop: output the group of the least remaining key. */
  method EmitLeastGroup(ghost s: seq<Integral>, groups: map<Key, seq<Integral>>, out: seq<Integral>,
                        remaining: set<Key>, ghost emitted: set<Key>)
    returns (out': seq<Integral>, remaining': set<Key>, ghost emitted': set<Key>)
    requires remaining != {} && EmitState(s, groups, out, remaining, emitted)
    ensures EmitState(s, groups, out', remaining', emitted') && |remaining'| < |remaining|
  {
    LeastKeyExists(remaining);
    var m :| m in remaining && forall q :: q in remaining ==> !KeyLess(q, m);
    EmitGroup(s, groups, out, m, emitted);
    out' := out + groups[m];
    remaining' := remaining - {m};
    emitted' := emitted + {m};
  }

  /**
   * The state of the emitting loop: the groups of the keys in `emitted`
   * have been output in sorted order, and every key still to come is
   * larger than each of them.
   */
  ghost predicate EmittedInOrder(s: seq<Integral>, groups: map<Key, seq<Integral>>, out: seq<Integral>, emitted: set<Key>)
  {
    emitted <= groups.Keys &&
    (forall k :: k in groups ==> groups[k] == Filter(s, k)) &&
    Sorted(out) &&
    (forall j :: 0 <= j < |out| ==> KeyOf(out[j]) in emitted) &&
    (forall e, q :: e in emitted && q in groups && q !in emitted ==> KeyLess(e, q)) &&
    (forall k :: Filter(out, k) == if k in emitted then groups[k] else [])
  }

  /** One step of the emitting loop: output the group of the least remaining key. */
  lemma EmitGroup(s: seq<Integral>, groups: map<Key, seq<Integral>>, out: seq<Integral>, m: Key, emitted: set<Key>)
    requires EmittedInOrder(s, groups, out, emitted)
    requires m in groups && m !in emitted
    requires forall q :: q in groups && q !in emitted ==> !KeyLess(q, m)
    ensures EmittedInOrder(s, groups, out + groups[m], emitted + {m})
  {
    FilterKeys(s, m);
    EmitGroupFilters(out, groups, m, emitted);
    AppendGroupSorted(out, groups[m], m, emitted);
    EmitGroupBounds(groups, m, emitted);
  }

  /** After the step, the output holds exactly the groups of the emitted keys. */
  lemma EmitGroupFilters(out: seq<Integral>, groups: map<Key, seq<Integral>>, m: Key, emitted: set<Key>)
    requires m in groups && m !in emitted && emitted <= groups.Keys
    requires forall j :: 0 <= j < |groups[m]| ==> KeyOf(groups[m][j]) == m
    requires forall k :: Filter(out, k) == if k in emitted then groups[k] else []
    ensures forall k :: Filter(out + groups[m], k) == if k in emitted + {m} then groups[k] else []
  {
    forall k
      ensures Filter(out + groups[m], k) == if k in emitted + {m} then groups[k] else []
    {
      FilterAppend(out, groups[m], k);
      FilterUniform(groups[m], m, k);
    }
  }

  /** After the step, the keys still to come exceed every emitted key. */
  lemma EmitGroupBounds(groups: map<Key, seq<Integral>>, m: Key, emitted: set<Key>)
    requires forall e, q :: e in emitted && q in groups && q !in emitted ==> KeyLess(e, q)
    requires forall q :: q in groups && q !in emitted ==> !KeyLess(q, m)
    ensures forall e, q :: e in emitted + {m} && q in groups && q !in emitted + {m} ==> KeyLess(e, q)
  {
    forall e, q | e in emitted + {m} && q in groups && q !in emitted + {m}
      ensures KeyLess(e, q)
    {
      if e == m {
        KeyLessTotal(m, q);
      }
    }
  }

  /** Appending a group whose key exceeds every key emitted so far keeps the order. */
  lemma AppendGroupSorted(out: seq<Integral>, g: seq<Integral>, m: Key, emitted: set<Key>)
    requires Sorted(out)
    requires forall j :: 0 <= j < |out| ==> KeyOf(out[j]) in emitted
    requires forall e :: e in emitted ==> KeyLess(e, m)
    requires forall j :: 0 <= j < |g| ==> KeyOf(g[j]) == m
    ensures Sorted(out + g)
    ensures forall j :: 0 <= j < |out + g| ==> KeyOf((out + g)[j]) in emitted + {m}
  {
    var t := out + g;
    forall i, j | 0 <= i < j < |t|
      ensures !KeyLess(KeyOf(t[j]), KeyOf(t[i]))
    {
      if j < |out| {
        assert t[i] == out[i] && t[j] == out[j];
      } else if i < |out| {
        assert t[j] == g[j - |out|];
        KeyLessAsymmetric(KeyOf(out[i]), m);
      } else {
        KeyLessIrreflexive(m);
      }
    }
  }

  /**
   * The canonical order is unique: two sorted sequences that agree on every
   * group are equal.  Hence sorting is deterministic, and a sorted input
   * comes back unchanged.
   */
  lemma {:induction false} CanonicalOrderUnique(a: seq<Integral>, b: seq<Integral>)
    requires Sorted(a) && Sorted(b)
    requires forall k :: Filter(a, k) == Filter(b, k)
    ensures a == b
    decreases |a|
  {
    SameGroupsSameMultiset(a, b);
    assert |a| == |multiset(a)| == |multiset(b)| == |b|;
    if |a| > 0 {
      HeadsAgree(a, b);
      forall k
        ensures Filter(a[1..], k) == Filter(b[1..], k)
      {
        DropHead(a, k);
        DropHead(b, k);
        var head := if KeyOf(a[0]) == k then [a[0]] else [];
        assert Filter(a[1..], k) == Filter(a, k)[|head|..];
        assert Filter(b[1..], k) == Filter(b, k)[|head|..];
      }
      CanonicalOrderUnique(a[1..], b[1..]);
      assert a == [a[0]] + a[1..] && b == [b[0]] + b[1..];
    }
  }

  /** A filter of a non-empty sequence, split at its head. */
  lemma DropHead(a: seq<Integral>, k: Key)
    requires |a| > 0
    ensures Filter(a, k) == (if KeyOf(a[0]) == k then [a[0]] else []) + Filter(a[1..], k)
  {
    assert a == [a[0]] + a[1..];
    FilterAppend([a[0]], a[1..], k);
    assert [a[0]][..0] == [];
  }

  /** Two sorted sequences that agree on every group start with the same integral. */
  lemma HeadsAgree(a: seq<Integral>, b: seq<Integral>)
    requires Sorted(a) && Sorted(b) && |a| > 0 && |b| > 0
    requires forall k :: Filter(a, k) == Filter(b, k)
    ensures a[0] == b[0]
  {
    var ka, kb := KeyOf(a[0]), KeyOf(b[0]);
    DropHead(a, ka);
    DropHead(b, kb);
    if ka != kb {
      KeyLessTotal(ka, kb);
      if KeyLess(ka, kb) {
        FilterEmpty(b, ka);
        assert false;
      } else {
        FilterEmpty(a, kb);
        assert false;
      }
    }
    assert a[0] == Filter(a, ka)[0] == Filter(b, ka)[0] == b[0];
  }

  /** A sorted sequence is its own canonical order. */
  lemma SortedIsCanonical(s: seq<Integral>, out: seq<Integral>)
    requires Sorted(s)
    requires CanonicalOrderOf(out, s)
    ensures out == s
  {
    CanonicalOrderUnique(out, s);
  }
}
