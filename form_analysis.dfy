/**
 * What a form derives from its integrals and form arguments: the
 * integration domains and their numbering, the subdomain data per domain
 * and integral type, the canonical argument and coefficient order, and
 * the renumbering that extends domain numbers with coefficient domains.
 */
module FormAnalysis {
  import opened Wrappers
  import opened FormOrder

  /** A form argument (test or trial function), ordered by its number. */
  datatype Argument = Argument(number: int, part: Option<int>, space: nat)

  /** A coefficient, ordered by its count; it may live on a domain of its own. */
  datatype Coefficient = Coefficient(count: int, domain: Option<Domain>, space: nat)

  predicate NoDuplicates<T(==)>(s: seq<T>) {
    forall i, j :: 0 <= i < j < |s| ==> s[i] != s[j]
  }

  /** The integrals of one type, in order (`integrals_by_type`). */
  function IntegralsOfType(s: seq<Integral>, t: string): (r: seq<Integral>)
    ensures |r| <= |s|
    ensures forall x :: x in r <==> x in s && x.integralType == t
  {
    if |s| == 0 then []
    else
      var p := s[..|s| - 1];
      assert forall x :: x in s <==> x in p || x == s[|s| - 1];
      IntegralsOfType(p, t) + (if s[|s| - 1].integralType == t then [s[|s| - 1]] else [])
  }

  /** Selecting one type keeps exactly the copies of the integrals of that type. */
  lemma {:induction false} IntegralsOfTypeMultiset(s: seq<Integral>, t: string, x: Integral)
    ensures multiset(IntegralsOfType(s, t))[x] == if x.integralType == t then multiset(s)[x] else 0
    decreases |s|
  {
    if |s| > 0 {
      var p := s[..|s| - 1];
      assert s == p + [s[|s| - 1]];
      IntegralsOfTypeMultiset(p, t, x);
    }
  }

  /** Selecting one type from a single integral keeps it exactly when it has that type. */
  lemma IntegralsOfTypeSingle(x: Integral, t: string)
    ensures IntegralsOfType([x], t) == if x.integralType == t then [x] else []
  {
  }

  /**
   * Selecting one type distributes over concatenation: together with
   * `IntegralsOfTypeSingle` this says the selection is the order-preserving
   * filter of the integrals on their type.
   */
  lemma {:induction false} IntegralsOfTypeAppend(a: seq<Integral>, b: seq<Integral>, t: string)
    ensures IntegralsOfType(a + b, t) == IntegralsOfType(a, t) + IntegralsOfType(b, t)
    decreases |b|
  {
    if |b| == 0 {
      assert a + b == a;
    } else {
      var q := b[..|b| - 1];
      var last := b[|b| - 1];
      assert (a + b)[..|a + b| - 1] == a + q;
      assert (a + b)[|a + b| - 1] == last;
      IntegralsOfTypeAppend(a, q, t);
    }
  }

  /**
   * Reordering integrals canonically reorders each type's integrals among
   * themselves: every type keeps the same integrals.
   */
  lemma CanonicalOrderKeepsTypes(out: seq<Integral>, input: seq<Integral>, t: string)
    requires multiset(out) == multiset(input)
    ensures multiset(IntegralsOfType(out, t)) == multiset(IntegralsOfType(input, t))
  {
    forall x
      ensures multiset(IntegralsOfType(out, t))[x] == multiset(IntegralsOfType(input, t))[x]
    {
      IntegralsOfTypeMultiset(out, t, x);
      IntegralsOfTypeMultiset(input, t, x);
    }
  }

  /** The integration domains of the integrals, each once, in order of first use. */
  function DistinctDomains(s: seq<Integral>): (r: seq<Domain>)
    ensures NoDuplicates(r)
    ensures forall d :: d in r <==> exists k :: 0 <= k < |s| && s[k].domain == Some(d)
  {
    if |s| == 0 then []
    else
      var p := s[..|s| - 1];
      var rp := DistinctDomains(p);
      assert forall k :: 0 <= k < |p| ==> p[k] == s[k];
      var last := s[|s| - 1].domain;
      if last.Some? && last.value !in rp then rp + [last.value] else rp
  }

  /**
   * For integrals in canonical order the distinct domains come out in
   * increasing order, so first-use order is the sorted order of the domains.
   */
  lemma {:induction false} DistinctDomainsIncrease(s: seq<Integral>)
    requires Sorted(s)
    requires forall k :: 0 <= k < |s| ==> s[k].domain.Some?
    ensures forall i, j :: 0 <= i < j < |DistinctDomains(s)| ==> DomainLess(DistinctDomains(s)[i], DistinctDomains(s)[j])
    decreases |s|
  {
    if |s| > 0 {
      var p := s[..|s| - 1];
      assert Sorted(p);
      DistinctDomainsIncrease(p);
      var x := s[|s| - 1];
      var rp := DistinctDomains(p);
      if x.domain.value !in rp {
        forall i | 0 <= i < |rp|
          ensures DomainLess(rp[i], x.domain.value)
        {
          var k :| 0 <= k < |p| && p[k].domain == Some(rp[i]);
          assert s[k] == p[k];
          assert !KeyLess(KeyOf(x), KeyOf(s[k]));
          DomainOrderTotal(rp[i], x.domain.value);
        }
      }
    }
  }

  lemma DomainOrderTotal(a: Domain, b: Domain)
    ensures a == b || DomainLess(a, b) || DomainLess(b, a)
  {
  }

  /** `dict((x, i) for i, x in enumerate(s))`: each entry numbered by its position. */
  function Numbering<T(==)>(s: seq<T>): (m: map<T, nat>)
    ensures m.Keys == set x | x in s
    ensures forall x :: x in m ==> m[x] < |s| && s[m[x]] == x
  {
    if |s| == 0 then map[]
    else
      var p := s[..|s| - 1];
      assert s == p + [s[|s| - 1]];
      Numbering(p)[s[|s| - 1] := |s| - 1]
  }

  /** Without duplicates, the numbering gives back each position. */
  lemma NumberingPositions<T>(s: seq<T>)
    requires NoDuplicates(s)
    ensures forall i :: 0 <= i < |s| ==> Numbering(s)[s[i]] == i
  {
    forall i | 0 <= i < |s|
      ensures Numbering(s)[s[i]] == i
    {
      assert s[i] in s;
    }
  }

  /** Some integral on domain `d` has type `t`. */
  ghost predicate Present(s: seq<Integral>, d: Domain, t: string) {
    exists k :: 0 <= k < |s| && s[k].domain == Some(d) && s[k].integralType == t
  }

  /** The first non-None subdomain data among the integrals on `d` of type `t`. */
  function FirstData(s: seq<Integral>, d: Domain, t: string): (r: Option<SubdomainData>)
    ensures r.None? ==> forall k :: 0 <= k < |s| && s[k].domain == Some(d) && s[k].integralType == t ==> s[k].subdomainData.None?
    ensures r.Some? ==> exists k :: 0 <= k < |s| && s[k].domain == Some(d) && s[k].integralType == t && s[k].subdomainData == r &&
                                    forall j :: 0 <= j < k && s[j].domain == Some(d) && s[j].integralType == t ==> s[j].subdomainData.None?
  {
    if |s| == 0 then None
    else
      var p := s[..|s| - 1];
      var fp := FirstData(p, d, t);
      assert forall k :: 0 <= k < |p| ==> p[k] == s[k];
      if fp.Some? then fp
      else if s[|s| - 1].domain == Some(d) && s[|s| - 1].integralType == t then s[|s| - 1].subdomainData
      else None
  }

  /** Two integrals on the same domain and of the same type carry subdomain data with different ids. */
  ghost predicate Clash(s: seq<Integral>) {
    exists i, j :: 0 <= i < |s| && 0 <= j < |s| && s[i].domain == s[j].domain && s[i].integralType == s[j].integralType &&
                   s[i].subdomainData.Some? && s[j].subdomainData.Some? &&
                   s[i].subdomainData.value.uflId != s[j].subdomainData.value.uflId
  }

  /** Without a clash, all data on (d, t) has the id of the first. */
  lemma NoClashAgreesWithFirst(s: seq<Integral>, d: Domain, t: string, k: int)
    requires !Clash(s)
    requires 0 <= k < |s| && s[k].domain == Some(d) && s[k].integralType == t && s[k].subdomainData.Some?
    ensures FirstData(s, d, t).Some? && FirstData(s, d, t).value.uflId == s[k].subdomainData.value.uflId
  {
  }

  /**
   * Appending one integral to a clash-free sequence creates a clash exactly
   * when it carries data whose id differs from the first data on its
   * domain and type.
   */
  lemma ClashSnoc(p: seq<Integral>, x: Integral)
    requires !Clash(p) && x.domain.Some?
    ensures Clash(p + [x]) <==>
              x.subdomainData.Some? && FirstData(p, x.domain.value, x.integralType).Some? &&
              FirstData(p, x.domain.value, x.integralType).value.uflId != x.subdomainData.value.uflId
  {
    var f := FirstData(p, x.domain.value, x.integralType);
    if x.subdomainData.Some? && f.Some? && f.value.uflId != x.subdomainData.value.uflId {
      ClashFromFirst(p, x);
    }
    if Clash(p + [x]) {
      FirstFromClash(p, x);
    }
  }

  /** A new integral whose data disagrees with the first data on its domain and type clashes. */
  lemma ClashFromFirst(p: seq<Integral>, x: Integral)
    requires x.domain.Some? && x.subdomainData.Some?
    requires FirstData(p, x.domain.value, x.integralType).Some?
    requires FirstData(p, x.domain.value, x.integralType).value.uflId != x.subdomainData.value.uflId
    ensures Clash(p + [x])
  {
    var s := p + [x];
    var d, t := x.domain.value, x.integralType;
    var f := FirstData(p, d, t);
    var k :| 0 <= k < |p| && p[k].domain == Some(d) && p[k].integralType == t && p[k].subdomainData == f &&
             forall j :: 0 <= j < k && p[j].domain == Some(d) && p[j].integralType == t ==> p[j].subdomainData.None?;
    assert s[k] == p[k] && s[|p|] == x;
    assert s[k].domain == s[|p|].domain;
  }

  /** A clash created by appending to a clash-free sequence involves the new integral and the first data. */
  lemma FirstFromClash(p: seq<Integral>, x: Integral)
    requires !Clash(p) && x.domain.Some? && Clash(p + [x])
    ensures x.subdomainData.Some? && FirstData(p, x.domain.value, x.integralType).Some? &&
            FirstData(p, x.domain.value, x.integralType).value.uflId != x.subdomainData.value.uflId
  {
    var s := p + [x];
    var d, t := x.domain.value, x.integralType;
    var i, j :| 0 <= i < |s| && 0 <= j < |s| && s[i].domain == s[j].domain && s[i].integralType == s[j].integralType &&
                s[i].subdomainData.Some? && s[j].subdomainData.Some? &&
                s[i].subdomainData.value.uflId != s[j].subdomainData.value.uflId;
    assert forall k :: 0 <= k < |p| ==> s[k] == p[k];
    assert s[|p|] == x;
    if i < |p| && j < |p| {
      assert false;
    } else if i < |p| {
      NoClashAgreesWithFirst(p, d, t, i);
    } else if j < |p| {
      NoClashAgreesWithFirst(p, d, t, j);
    }
  }


  /** Keys nondecreasing along the sequence. */
  predicate SortedBy<T>(s: seq<T>, key: T -> int) {
    forall i, j :: 0 <= i < j < |s| ==> key(s[i]) <= key(s[j])
  }

  function ArgumentNumber(a: Argument): int {
    a.number
  }

  function CoefficientCount(c: Coefficient): int {
    c.count
  }

  /**
   * `sorted(set(s), key=key)`: each distinct element once, keys
   * nondecreasing.
   */
  method SortUnique<T(==)>(s: seq<T>, key: T -> int) returns (r: seq<T>)
    ensures forall x :: x in r <==> x in s
    ensures NoDuplicates(r)
    ensures SortedBy(r, key)
  {
    r := SortSet((set x | x in s), key);
  }

  /**
   * `sorted(given, key=key)` for a set: its elements once each, keys
   * nondecreasing.  The set's iteration order is not fixed, so elements
   * with equal keys may come in any order; the loop takes one of least key
   * at a time.
   */
  method SortSet<T(==)>(given: set<T>, key: T -> int) returns (r: seq<T>)
    ensures forall x :: x in r <==> x in given
    ensures NoDuplicates(r)
    ensures SortedBy(r, key)
  {
    var remaining := given;
    r := [];
    while remaining != {}
      invariant forall x :: x in given <==> x in r || x in remaining
      invariant forall x :: x in r ==> x !in remaining
      invariant NoDuplicates(r) && SortedBy(r, key)
      invariant forall i, y :: 0 <= i < |r| && y in remaining ==> key(r[i]) <= key(y)
      decreases |remaining|
    {
      r, remaining := TakeLeast(given, key, r, remaining);
    }
  }

  /** One iteration of SortSet: move an element of least key from the set to the output. */
  method TakeLeast<T(==)>(ghost given: set<T>, key: T -> int, r: seq<T>, remaining: set<T>)
    returns (r': seq<T>, remaining': set<T>)
    requires remaining != {}
    requires forall x :: x in given <==> x in r || x in remaining
    requires forall x :: x in r ==> x !in remaining
    requires NoDuplicates(r) && SortedBy(r, key)
    requires forall i, y :: 0 <= i < |r| && y in remaining ==> key(r[i]) <= key(y)
    ensures forall x :: x in given <==> x in r' || x in remaining'
    ensures forall x :: x in r' ==> x !in remaining'
    ensures NoDuplicates(r') && SortedBy(r', key)
    ensures forall i, y :: 0 <= i < |r'| && y in remaining' ==> key(r'[i]) <= key(y)
    ensures |remaining'| < |remaining|
  {
    LeastKeyElementExists(remaining, key);
    var m :| m in remaining && forall y :: y in remaining ==> key(m) <= key(y);
    r' := r + [m];
    remaining' := remaining - {m};
    assert forall x :: x in r' <==> x in r || x == m;
  }

  lemma {:induction false} LeastKeyElementExists<T>(s: set<T>, key: T -> int)
    requires s != {}
    ensures exists m :: m in s && forall y :: y in s ==> key(m) <= key(y)
    decreases |s|
  {
    var x :| x in s;
    if s - {x} != {} {
      LeastKeyElementExists(s - {x}, key);
      var y :| y in s - {x} && forall z :: z in s - {x} ==> key(y) <= key(z);
      if key(x) < key(y) {
        assert forall z :: z in s ==> key(x) <= key(z);
      } else {
        assert forall z :: z in s ==> key(y) <= key(z);
      }
    } else {
      assert s == {x};
    }
  }

  /**
   * Coefficient counts are unique per coefficient, so the sorted
   * coefficients are fully determined: two results of sorting the same
   * set by count are equal.
   */
  lemma {:induction false} SortedByDistinctKeysUnique<T>(a: seq<T>, b: seq<T>, key: T -> int)
    requires forall x :: x in a <==> x in b
    requires NoDuplicates(a) && NoDuplicates(b) && SortedBy(a, key) && SortedBy(b, key)
    requires forall x, y :: x in a && y in a && x != y ==> key(x) != key(y)
    ensures a == b
    decreases |a|
  {
    if |b| > 0 {
      assert b[0] in b;
    }
    if |a| > 0 {
      assert a[0] in a;
      SortedHeadsEqual(a, b, key);
      TailsAgree(a, b, key);
      SortedByDistinctKeysUnique(a[1..], b[1..], key);
      assert a == [a[0]] + a[1..] && b == [b[0]] + b[1..];
    }
  }

  /** Removing a common head from two such sequences leaves two such sequences. */
  lemma TailsAgree<T>(a: seq<T>, b: seq<T>, key: T -> int)
    requires |a| > 0 && |b| > 0 && a[0] == b[0]
    requires forall x :: x in a <==> x in b
    requires NoDuplicates(a) && NoDuplicates(b) && SortedBy(a, key) && SortedBy(b, key)
    requires forall x, y :: x in a && y in a && x != y ==> key(x) != key(y)
    ensures forall x :: x in a[1..] <==> x in b[1..]
    ensures NoDuplicates(a[1..]) && NoDuplicates(b[1..]) && SortedBy(a[1..], key) && SortedBy(b[1..], key)
    ensures forall x, y :: x in a[1..] && y in a[1..] && x != y ==> key(x) != key(y)
  {
    SortedTails(a, key);
    SortedTails(b, key);
    forall x
      ensures x in a[1..] <==> x in b[1..]
      ensures x in a[1..] ==> x in a
    {
      TailMembership(a, x);
      TailMembership(b, x);
    }
  }

  /** Two sorted sequences of the same elements with distinct keys start with the same element. */
  lemma SortedHeadsEqual<T>(a: seq<T>, b: seq<T>, key: T -> int)
    requires |a| > 0 && |b| > 0
    requires forall x :: x in a <==> x in b
    requires SortedBy(a, key) && SortedBy(b, key)
    requires forall x, y :: x in a && y in a && x != y ==> key(x) != key(y)
    ensures a[0] == b[0]
  {
    assert a[0] in a && b[0] in b;
    var i :| 0 <= i < |b| && b[i] == a[0];
    var j :| 0 <= j < |a| && a[j] == b[0];
    assert key(b[0]) <= key(b[i]) && key(a[0]) <= key(a[j]);
  }

  /** The tail of a sorted sequence without duplicates is one too. */
  lemma SortedTails<T>(a: seq<T>, key: T -> int)
    requires |a| > 0 && NoDuplicates(a) && SortedBy(a, key)
    ensures NoDuplicates(a[1..]) && SortedBy(a[1..], key)
  {
    assert forall k :: 0 <= k < |a| - 1 ==> a[1..][k] == a[k + 1];
  }

  /** Without duplicates, the tail holds exactly the elements other than the head. */
  lemma TailMembership<T>(a: seq<T>, x: T)
    requires |a| > 0 && NoDuplicates(a)
    ensures x in a[1..] <==> x in a && x != a[0]
  {
    if x in a[1..] {
      var k :| 0 <= k < |a| - 1 && a[1..][k] == x;
      assert a[k + 1] == x;
    }
    if x in a && x != a[0] {
      var k :| 0 <= k < |a| && a[k] == x;
      assert a[1..][k - 1] == x;
    }
  }

  /**
   * The renumbering dict, whose keys are domains and coefficients, as its
   * two halves.
   */
  datatype Renumbering = Renumbering(domains: map<Domain, nat>, coefficients: map<Coefficient, nat>)

  /**
   * The domains of the coefficients that are not in `known`, each once, in
   * the order the coefficients are visited.
   */
  function NewDomains(known: set<Domain>, cs: seq<Coefficient>): (r: seq<Domain>)
    ensures NoDuplicates(r)
    ensures forall d :: d in r <==> d !in known && exists k :: 0 <= k < |cs| && cs[k].domain == Some(d)
  {
    if |cs| == 0 then []
    else
      var p := cs[..|cs| - 1];
      var rp := NewDomains(known, p);
      assert forall k :: 0 <= k < |p| ==> p[k] == cs[k];
      var last := cs[|cs| - 1].domain;
      if last.Some? && last.value !in known && last.value !in rp then rp + [last.value] else rp
  }
}
