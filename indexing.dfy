/**
 * The index model: symbolic indices numbered by a process-wide counter,
 * fixed integer indices and the full-range `Axis`; the conversion of what
 * a user writes inside `[]` into an index tuple; and the classification
 * of an index tuple into fixed, free, repeated and axis entries.
 */
module Indexing {
  import opened Wrappers

  /** The process-wide counter behind `Index._globalcount`. */
  class IndexCounter {
    var globalCount: int

    constructor ()
      ensures globalCount == 0
    {
      globalCount := 0;
    }
  }

  /**
   * The count an index receives and the counter's next value: a fresh
   * index takes the counter and bumps it by one; an explicit count is kept
   * and lifts the counter past it when needed.
   */
  function Advance(global: int, requested: Option<int>): (r: (int, int))
    ensures r.0 < r.1 && global <= r.1
    ensures requested.None? ==> r == (global, global + 1)
    ensures requested.Some? ==> r.0 == requested.value && r.1 == (if requested.value >= global then requested.value + 1 else global)
  {
    match requested
    case None => (global, global + 1)
    case Some(c) => (c, if c >= global then c + 1 else global)
  }

  /**
   * A symbolic index.  It defines no equality of its own, so two indices
   * are the same only when they are the same object; a Dafny class gives
   * exactly that.
   */
  class Index {
    const name: Option<string>
    const count: int

    constructor (name: Option<string>, count: Option<int>, counter: IndexCounter)
      modifies counter
      ensures this.name == name
      ensures (this.count, counter.globalCount) == Advance(old(counter.globalCount), count)
      ensures this.count < counter.globalCount
    {
      this.name := name;
      if count.None? {
        this.count := counter.globalCount;
        counter.globalCount := counter.globalCount + 1;
      } else {
        this.count := count.value;
        if count.value >= counter.globalCount {
          counter.globalCount := count.value + 1;
        }
      }
    }
  }

  /** The counts handed to `n` indices created one after another without a count. */
  function FreshCounts(global: int, n: nat): (r: seq<int>)
    decreases n
    ensures |r| == n
  {
    if n == 0 then []
    else
      var (c, next) := Advance(global, None);
      [c] + FreshCounts(next, n - 1)
  }

  /**
   * Fresh indices get strictly increasing counts, none below the counter
   * they started from, so `n` of them have `n` distinct counts.
   */
  lemma {:induction false} FreshCountsIncrease(global: int, n: nat)
    decreases n
    ensures forall k :: 0 <= k < n ==> FreshCounts(global, n)[k] == global + k
    ensures forall j, k :: 0 <= j < k < n ==> FreshCounts(global, n)[j] < FreshCounts(global, n)[k]
  {
    if n > 0 {
      FreshCountsIncrease(global + 1, n - 1);
      assert FreshCounts(global, n) == [global] + FreshCounts(global + 1, n - 1);
    }
  }

  /**
   * After an index is created with an explicit count, every fresh index
   * gets a larger count.
   */
  lemma ExplicitCountIsNeverReused(global: int, c: int, n: nat)
    ensures forall k :: 0 <= k < n ==> c < FreshCounts(Advance(global, Some(c)).1, n)[k]
  {
    FreshCountsIncrease(Advance(global, Some(c)).1, n);
  }

  /** One entry of an index tuple: an `Index`, a `FixedIndex` or the `Axis` singleton. */
  datatype IndexItem = Symbolic(index: Index) | Fixed(value: int) | Axis

  /** Something a user may write inside `[]`. */
  datatype IndexInput =
    | GivenIndex(index: Index)
    | GivenFixed(value: int)
    | IntValue(n: int)
    | SliceValue(start: Option<int>, stop: Option<int>, step: Option<int>)
    | EllipsisValue
    | AxisValue
    | OtherValue

  /** The argument of `as_index_tuple`: a tuple, or a single entry. */
  datatype IndexArg = TupleArg(items: seq<IndexInput>) | SingleArg(item: IndexInput)

  datatype IndexError =
    | PartialSlice          // "Partial slices not implemented, only [:]"
    | NotConvertible        // "Can convert this object to index"
    | EllipsisFound         // "Found duplicate ellipsis."
    | TooManyRepetitions    // "Too many index repetitions"

  /** as_index: one user entry as an index object. */
  function AsIndex(i: IndexInput): (r: Result<IndexItem, IndexError>)
    ensures r.Ok? <==> i.GivenIndex? || i.GivenFixed? || i.IntValue? ||
                       (i.SliceValue? && i.start.None? && i.stop.None? && i.step.None?)
    ensures i.GivenIndex? ==> r == Ok(Symbolic(i.index))
    ensures i.GivenFixed? ==> r == Ok(Fixed(i.value))
    ensures i.IntValue? ==> r == Ok(Fixed(i.n))
    ensures r.Ok? && i.SliceValue? ==> r == Ok(Axis)
    ensures r.Err? ==> r.error == (if i.SliceValue? then PartialSlice else NotConvertible)
  {
    match i
    case GivenIndex(idx) => Ok(Symbolic(idx))
    case GivenFixed(v) => Ok(Fixed(v))
    case IntValue(n) => Ok(Fixed(n))
    case SliceValue(start, stop, step) =>
      if start.None? && stop.None? && step.None? then Ok(Axis) else Err(PartialSlice)
    case _ => Err(NotConvertible)
  }

  /** An index object handed back to the user, as it would be written inside `[]` again. */
  function AsInput(x: IndexItem): IndexInput {
    match x
    case Symbolic(idx) => GivenIndex(idx)
    case Fixed(v) => GivenFixed(v)
    case Axis => AxisValue
  }

  /**
   * Converting an index object again gives it back, except for `Axis`,
   * which `as_index` does not accept.
   */
  lemma AsIndexRoundTrip(x: IndexItem)
    ensures !x.Axis? ==> AsIndex(AsInput(x)) == Ok(x)
    ensures x.Axis? ==> AsIndex(AsInput(x)) == Err(NotConvertible)
  {
  }

  /** The entries of an `as_index_tuple` argument: a non-tuple becomes a 1-tuple. */
  function Entries(arg: IndexArg): (r: seq<IndexInput>)
    ensures arg.SingleArg? ==> r == [arg.item]
  {
    match arg
    case TupleArg(items) => items
    case SingleArg(item) => [item]
  }

  /** The error raised for one entry inside the conversion loop, if any. */
  function EntryCheck(i: IndexInput): (r: Result<IndexItem, IndexError>)
    ensures i.EllipsisValue? ==> r == Err(EllipsisFound)
    ensures !i.EllipsisValue? ==> r == AsIndex(i)
  {
    if i.EllipsisValue? then Err(EllipsisFound) else AsIndex(i)
  }

  /** The entries converted in order, or the first entry's error. */
  function ConvertAll(items: seq<IndexInput>): (r: Result<seq<IndexItem>, IndexError>)
    ensures r.Ok? <==> forall k :: 0 <= k < |items| ==> EntryCheck(items[k]).Ok?
    ensures r.Ok? ==> |r.value| == |items| &&
                      forall k :: 0 <= k < |items| ==> r.value[k] == EntryCheck(items[k]).value
    ensures r.Err? ==> exists k :: 0 <= k < |items| && EntryCheck(items[k]) == Err(r.error) &&
                                   forall j :: 0 <= j < k ==> EntryCheck(items[j]).Ok?
  {
    if |items| == 0 then Ok([])
    else
      var last := EntryCheck(items[|items| - 1]);
      match ConvertAll(items[..|items| - 1])
      case Err(e) => Err(e)
      case Ok(prefix) =>
        if last.Err? then Err(last.error) else Ok(prefix + [last.value])
  }

  /** `n` copies of `Axis`; none when `n` is not positive, like `[Axis] * n`. */
  function Axes(n: int): (r: seq<IndexItem>)
    ensures |r| == (if n > 0 then n else 0)
    ensures forall k :: 0 <= k < |r| ==> r[k] == Axis
  {
    if n <= 0 then [] else Axes(n - 1) + [Axis]
  }

  /**
   * as_index_tuple.  The loop never sets its `found` flag, so the branch
   * meant to expand an Ellipsis is dead and every Ellipsis is rejected;
   * what remains is: convert each entry in order and put `rank - n`
   * leading `Axis` entries in front.
   */
  method AsIndexTuple(indices: IndexArg, rank: int) returns (r: Result<seq<IndexItem>, IndexError>)
    ensures r.Ok? <==> ConvertAll(Entries(indices)).Ok?
    ensures r.Err? ==> r.error == ConvertAll(Entries(indices)).error
    ensures r.Ok? ==> r.value == Axes(rank - |Entries(indices)|) + ConvertAll(Entries(indices)).value
    ensures r.Ok? ==> |r.value| == (if rank > |Entries(indices)| then rank else |Entries(indices)|)
  {
    var items := Entries(indices);
    var post: seq<IndexItem> := [];
    var j := 0;
    while j < |items|
      invariant 0 <= j <= |items|
      invariant ConvertAll(items[..j]) == Ok(post)
    {
      assert items[..j + 1][..j] == items[..j];
      if items[j].EllipsisValue? {
        FirstErrorStands(items, j + 1);
        return Err(EllipsisFound);
      }
      var converted := AsIndex(items[j]);
      if converted.Err? {
        FirstErrorStands(items, j + 1);
        return Err(converted.error);
      }
      post := post + [converted.value];
      j := j + 1;
    }
    assert items[..j] == items;
    return Ok(Axes(rank - |post|) + post);
  }

  /** Once a prefix fails to convert, the whole sequence fails with the same error. */
  lemma {:induction false} FirstErrorStands(items: seq<IndexInput>, j: nat)
    requires j <= |items|
    requires ConvertAll(items[..j]).Err?
    ensures ConvertAll(items) == ConvertAll(items[..j])
    decreases |items| - j
  {
    if j < |items| {
      assert items[..j + 1][..j] == items[..j];
      FirstErrorStands(items, j + 1);
    } else {
      assert items[..j] == items;
    }
  }

  /** MultiIndex: the index tuple of an indexing expression. */
  datatype MultiIndex = MultiIndex(indices: seq<IndexItem>) {
    /** `__len__` */
    function Length(): nat {
      |indices|
    }
  }

  /** The MultiIndex constructor, which normalises its argument with as_index_tuple. */
  method NewMultiIndex(indices: IndexArg, rank: int) returns (r: Result<MultiIndex, IndexError>)
    ensures r.Ok? <==> ConvertAll(Entries(indices)).Ok?
    ensures r.Err? ==> r.error == ConvertAll(Entries(indices)).error
    ensures r.Ok? ==> r.value.indices == Axes(rank - |Entries(indices)|) + ConvertAll(Entries(indices)).value
    ensures r.Ok? ==> r.value.Length() == (if rank > |Entries(indices)| then rank else |Entries(indices)|)
  {
    var t := AsIndexTuple(indices, rank);
    if t.Err? {
      return Err(t.error);
    }
    return Ok(MultiIndex(t.value));
  }

  /** How often a symbolic index occurs in an index tuple. */
  function Occurrences(s: seq<IndexItem>, idx: Index): nat {
    multiset(s)[Symbolic(idx)]
  }

  /** The symbolic indices occurring in an index tuple. */
  function SymbolsOf(s: seq<IndexItem>): set<Index> {
    set k | 0 <= k < |s| && s[k].Symbolic? :: s[k].index
  }

  /** The indices occurring exactly `n` times. */
  function OccurringTimes(s: seq<IndexItem>, n: nat): set<Index> {
    set idx | idx in SymbolsOf(s) && Occurrences(s, idx) == n
  }

  /** No symbolic index occurs more than twice. */
  predicate AtMostTwice(s: seq<IndexItem>) {
    forall k :: 0 <= k < |s| && s[k].Symbolic? ==> Occurrences(s, s[k].index) <= 2
  }

  /** The (position, value) pairs of the fixed entries, in position order. */
  function FixedOf(s: seq<IndexItem>): seq<(nat, int)> {
    if |s| == 0 then []
    else FixedOf(s[..|s| - 1]) + (if s[|s| - 1].Fixed? then [(|s| - 1, s[|s| - 1].value)] else [])
  }

  /**
   * The fixed entries are listed in increasing position order, and a pair
   * is listed exactly when that position holds that fixed value.
   */
  lemma {:induction false} FixedOfOrdered(s: seq<IndexItem>)
    ensures forall j, k :: 0 <= j < k < |FixedOf(s)| ==> FixedOf(s)[j].0 < FixedOf(s)[k].0
    ensures forall pv :: pv in FixedOf(s) <==> pv.0 < |s| && s[pv.0] == Fixed(pv.1)
  {
    if |s| > 0 {
      var prefix := s[..|s| - 1];
      FixedOfOrdered(prefix);
      var tail := if s[|s| - 1].Fixed? then [(|s| - 1, s[|s| - 1].value)] else [];
      assert FixedOf(s) == FixedOf(prefix) + tail;
      forall pv: (nat, int)
        ensures pv in FixedOf(s) <==> pv.0 < |s| && s[pv.0] == Fixed(pv.1)
      {
        if pv.0 < |prefix| {
          assert prefix[pv.0] == s[pv.0];
        }
      }
      forall pv | pv in FixedOf(prefix)
        ensures pv.0 < |s| - 1
      {
      }
    }
  }

  /** What extract_indices returns. */
  datatype Extracted = Extracted(fixed: seq<(nat, int)>, free: set<Index>, repeated: set<Index>, numAxes: nat)

  /**
   * extract_indices: count the symbolic indices in a loop, reject any that
   * occurs more than twice, and classify the entries.
   */
  method ExtractIndices(s: seq<IndexItem>) returns (r: Result<Extracted, IndexError>)
    ensures r.Err? <==> !AtMostTwice(s)
    ensures r.Err? ==> r.error == TooManyRepetitions
    ensures r.Ok? ==> r.value.fixed == FixedOf(s) && r.value.numAxes == multiset(s)[Axis]
    ensures r.Ok? ==> forall idx :: idx in r.value.free <==> idx in SymbolsOf(s) && Occurrences(s, idx) == 1
    ensures r.Ok? ==> forall idx :: idx in r.value.repeated <==> idx in SymbolsOf(s) && Occurrences(s, idx) == 2
    ensures r.Ok? ==> |r.value.fixed| + |r.value.free| + 2 * |r.value.repeated| + r.value.numAxes == |s|
  {
    var fixed := FixedOf(s);
    var numAxes := multiset(s)[Axis];

    var counts: map<Index, nat> := map[];
    var j := 0;
    while j < |s|
      invariant 0 <= j <= |s|
      invariant forall idx :: idx in counts <==> idx in SymbolsOf(s[..j])
      invariant forall idx :: idx in counts ==> counts[idx] == Occurrences(s[..j], idx)
    {
      assert s[..j + 1] == s[..j] + [s[j]];
      if s[j].Symbolic? {
        var idx := s[j].index;
        counts := counts[idx := if idx in counts then counts[idx] + 1 else 1];
      }
      SymbolsOfSnoc(s[..j], s[j]);
      j := j + 1;
    }
    assert s[..j] == s;

    if !(forall idx | idx in counts :: counts[idx] <= 2) {
      assert !AtMostTwice(s) by {
        var idx :| idx in counts && counts[idx] > 2;
        var k :| 0 <= k < |s| && s[k].Symbolic? && s[k].index == idx;
      }
      return Err(TooManyRepetitions);
    }
    var free := set idx | idx in counts && counts[idx] == 1;
    var repeated := set idx | idx in counts && counts[idx] == 2;
    assert free == OccurringTimes(s, 1);
    assert repeated == OccurringTimes(s, 2);
    CountingIdentity(s);
    return Ok(Extracted(fixed, free, repeated, numAxes));
  }

  /** Appending an entry adds its index, if it has one, to the occurring symbols. */
  lemma SymbolsOfSnoc(s: seq<IndexItem>, x: IndexItem)
    ensures SymbolsOf(s + [x]) == SymbolsOf(s) + (if x.Symbolic? then {x.index} else {})
  {
    var t := s + [x];
    forall idx | idx in SymbolsOf(t)
      ensures idx in SymbolsOf(s) + (if x.Symbolic? then {x.index} else {})
    {
      var k :| 0 <= k < |t| && t[k].Symbolic? && t[k].index == idx;
      if k < |s| {
        assert s[k] == t[k];
      }
    }
    forall idx | idx in SymbolsOf(s)
      ensures idx in SymbolsOf(t)
    {
      var k :| 0 <= k < |s| && s[k].Symbolic? && s[k].index == idx;
      assert t[k] == s[k];
    }
    if x.Symbolic? {
      assert t[|s|] == x;
    }
  }

  /**
   * The identity extract_indices asserts: each entry is fixed, free, one of
   * the two occurrences of a repeated index, or an axis.
   */
  lemma {:induction false} CountingIdentity(s: seq<IndexItem>)
    requires AtMostTwice(s)
    ensures |FixedOf(s)| + |OccurringTimes(s, 1)| + 2 * |OccurringTimes(s, 2)| + multiset(s)[Axis] == |s|
  {
    if |s| > 0 {
      var prefix := s[..|s| - 1];
      var x := s[|s| - 1];
      assert s == prefix + [x];
      AtMostTwicePrefix(prefix, x);
      CountingIdentity(prefix);
      FixedOfSnoc(prefix, x);
      assert x.Symbolic? ==> Occurrences(s, s[|s| - 1].index) <= 2;
      OccurringTimesSnoc(prefix, x);
    }
  }

  /** Dropping the last entry keeps every index at most twice. */
  lemma AtMostTwicePrefix(prefix: seq<IndexItem>, x: IndexItem)
    requires AtMostTwice(prefix + [x])
    ensures AtMostTwice(prefix)
  {
    var s := prefix + [x];
    forall k | 0 <= k < |prefix| && prefix[k].Symbolic?
      ensures Occurrences(prefix, prefix[k].index) <= 2
    {
      assert s[k] == prefix[k];
    }
  }

  /** A symbolic index occurs in the tuple exactly when it is one of its symbols. */
  lemma SymbolsOfOccur(s: seq<IndexItem>, i: Index)
    ensures i in SymbolsOf(s) <==> Occurrences(s, i) > 0
  {
    if i in SymbolsOf(s) {
      var k :| 0 <= k < |s| && s[k].Symbolic? && s[k].index == i;
      assert s[k] in multiset(s);
    }
    if Occurrences(s, i) > 0 {
      assert Symbolic(i) in multiset(s);
      var k :| 0 <= k < |s| && s[k] == Symbolic(i);
    }
  }

  /**
   * Appending an entry changes the free and repeated sets so that
   * |free| + 2 * |repeated| grows by one for a symbolic entry.
   */
  lemma OccurringTimesSnoc(prefix: seq<IndexItem>, x: IndexItem)
    requires x.Symbolic? ==> Occurrences(prefix + [x], x.index) <= 2
    ensures |OccurringTimes(prefix + [x], 1)| + 2 * |OccurringTimes(prefix + [x], 2)| ==
            |OccurringTimes(prefix, 1)| + 2 * |OccurringTimes(prefix, 2)| + (if x.Symbolic? then 1 else 0)
  {
    if x.Symbolic? {
      assert multiset(prefix + [x]) == multiset(prefix) + multiset{x};
      if Occurrences(prefix, x.index) == 0 {
        FirstOccurrence(prefix, x.index);
      } else {
        SecondOccurrence(prefix, x.index);
      }
    } else {
      OtherEntry(prefix, x);
    }
  }

  /** Appending a non-symbolic entry leaves the free and repeated sets alone. */
  lemma OtherEntry(prefix: seq<IndexItem>, x: IndexItem)
    requires !x.Symbolic?
    ensures OccurringTimes(prefix + [x], 1) == OccurringTimes(prefix, 1)
    ensures OccurringTimes(prefix + [x], 2) == OccurringTimes(prefix, 2)
  {
    SymbolsOfSnoc(prefix, x);
    forall idx
      ensures Occurrences(prefix + [x], idx) == Occurrences(prefix, idx)
    {
    }
  }

  /** Appending the first occurrence of an index makes it free. */
  lemma FirstOccurrence(prefix: seq<IndexItem>, i: Index)
    requires Occurrences(prefix, i) == 0
    ensures OccurringTimes(prefix + [Symbolic(i)], 1) == OccurringTimes(prefix, 1) + {i}
    ensures OccurringTimes(prefix + [Symbolic(i)], 2) == OccurringTimes(prefix, 2)
    ensures i !in OccurringTimes(prefix, 1)
  {
    SymbolsOfSnoc(prefix, Symbolic(i));
    SymbolsOfOccur(prefix, i);
    forall idx | idx != i
      ensures Occurrences(prefix + [Symbolic(i)], idx) == Occurrences(prefix, idx)
    {
    }
  }

  /** Appending the second occurrence of an index moves it from free to repeated. */
  lemma SecondOccurrence(prefix: seq<IndexItem>, i: Index)
    requires Occurrences(prefix, i) == 1
    ensures OccurringTimes(prefix + [Symbolic(i)], 1) == OccurringTimes(prefix, 1) - {i}
    ensures OccurringTimes(prefix + [Symbolic(i)], 2) == OccurringTimes(prefix, 2) + {i}
    ensures i in OccurringTimes(prefix, 1) && i !in OccurringTimes(prefix, 2)
  {
    SymbolsOfSnoc(prefix, Symbolic(i));
    SymbolsOfOccur(prefix, i);
    forall idx | idx != i
      ensures Occurrences(prefix + [Symbolic(i)], idx) == Occurrences(prefix, idx)
    {
    }
  }

  /** Appending an entry adds one fixed pair exactly when the entry is fixed. */
  lemma FixedOfSnoc(s: seq<IndexItem>, x: IndexItem)
    ensures |FixedOf(s + [x])| == |FixedOf(s)| + (if x.Fixed? then 1 else 0)
  {
    var t := s + [x];
    assert t[..|t| - 1] == s;
  }
}
