/**
 * Tensor literals: `ListVector`, `ListMatrix` and `Tensor` group scalar
 * expressions into an expression of rank 1, 2 or the number of indices
 * given.  An expression is seen only through its rank and its set of
 * free indices.
 */
module Tensors {
  import opened Wrappers
  import opened Indexing

  /** What a tensor literal needs to know about an expression. */
  datatype ExprInfo = ExprInfo(rank: nat, free: set<Index>)

  /** An argument of a tensor-literal constructor. */
  datatype Value =
    | Expression(info: ExprInfo)   // a UFL expression
    | List(items: seq<Value>)      // a Python list
    | Opaque                       // anything else (it has no usable `rank`)

  datatype TensorError =
    | NotAList           // "Expecting list of expressions." / "Expecting list."
    | NotAListOfLists    // "Expecting list of lists of expressions."
    | NoRank             // the entry has no `rank` to ask
    | NotScalar          // "Expecting scalar valued expressions."
    | EmptyList          // indexing `expressions[0]` of an empty list
    | InconsistentRows   // "Inconsistent row size."
    | FreeIndexMismatch  // "Can't handle list of expressions with different free indices."
    | NotExpression      // "Expecting ufl expression."
    | NotAnIndex         // "Expecting Index instances in indices list."
    | IndexMismatch      // "Index mismatch."

  /** A validated tensor literal with the fields its constructor stores. */
  datatype TensorLiteral =
    | ListVector(expressions: seq<ExprInfo>, freeIndices: set<Index>)
    | ListMatrix(rows: seq<seq<ExprInfo>>, freeIndices: set<Index>)
    | Tensor(expression: ExprInfo, indices: seq<IndexItem>, freeIndices: set<Index>)
  {
    /** `rank()` */
    function Rank(): nat {
      match this
      case ListVector(_, _) => 1
      case ListMatrix(_, _) => 2
      case Tensor(_, indices, _) => |indices|
    }

    /** The literal seen as an expression in its own right. */
    function AsExpr(): ExprInfo {
      ExprInfo(Rank(), freeIndices)
    }
  }

  predicate IsScalar(v: Value) {
    v.Expression? && v.info.rank == 0
  }

  /** The error `e.rank() == 0` produces for an entry that fails it. */
  function RankError(v: Value): TensorError {
    if v.Expression? then NotScalar else NoRank
  }

  function InfoOf(v: Value): ExprInfo {
    if v.Expression? then v.info else ExprInfo(0, {})
  }

  function ItemsOf(v: Value): seq<Value> {
    if v.List? then v.items else []
  }

  /** The `all(e.rank() == 0 ...)` scan: the error of the first entry that is not scalar. */
  function ScalarScan(items: seq<Value>): (r: Option<TensorError>)
    ensures r.None? <==> forall k :: 0 <= k < |items| ==> IsScalar(items[k])
    ensures r.Some? ==> exists k :: 0 <= k < |items| && !IsScalar(items[k]) && r.value == RankError(items[k]) &&
                                    forall j :: 0 <= j < k ==> IsScalar(items[j])
  {
    if |items| == 0 then None
    else if !IsScalar(items[0]) then Some(RankError(items[0]))
    else
      var rest := ScalarScan(items[1..]);
      assert forall k :: 1 <= k < |items| ==> items[k] == items[1..][k - 1];
      if rest.Some? then
        ghost var k :| 0 <= k < |items[1..]| && !IsScalar(items[1..][k]) && rest.value == RankError(items[1..][k]) &&
                       forall j :: 0 <= j < k ==> IsScalar(items[1..][j]);
        assert !IsScalar(items[k + 1]) && rest.value == RankError(items[k + 1]);
        rest
      else rest
  }

  /**
   * Entry `j` of row `i` is the first entry, in row-major order, that is
   * not scalar, and `e` is the error asking its rank raises.
   */
  predicate FirstNonScalarAt(rows: seq<Value>, i: int, j: int, e: TensorError) {
    0 <= i < |rows| && 0 <= j < |ItemsOf(rows[i])| &&
    !IsScalar(ItemsOf(rows[i])[j]) && e == RankError(ItemsOf(rows[i])[j]) &&
    (forall p, q :: 0 <= p < i && 0 <= q < |ItemsOf(rows[p])| ==> IsScalar(ItemsOf(rows[p])[q])) &&
    (forall q :: 0 <= q < j ==> IsScalar(ItemsOf(rows[i])[q]))
  }

  /** A first non-scalar entry after an all-scalar first row is one row further down. */
  lemma FirstNonScalarBelow(rows: seq<Value>, i: int, j: int, e: TensorError)
    requires |rows| > 0 && forall q :: 0 <= q < |ItemsOf(rows[0])| ==> IsScalar(ItemsOf(rows[0])[q])
    requires FirstNonScalarAt(rows[1..], i, j, e)
    ensures FirstNonScalarAt(rows, i + 1, j, e)
  {
    assert forall p :: 1 <= p < |rows| ==> rows[p] == rows[1..][p - 1];
  }

  /** Every entry of every row is a scalar expression. */
  predicate AllEntriesScalar(rows: seq<Value>) {
    forall i, j :: 0 <= i < |rows| && 0 <= j < |ItemsOf(rows[i])| ==> IsScalar(ItemsOf(rows[i])[j])
  }

  /** The row-by-row scan over a list of lists. */
  function RowsScan(rows: seq<Value>): (r: Option<TensorError>)
    ensures r.None? <==> AllEntriesScalar(rows)
    ensures r.Some? ==> exists i, j :: FirstNonScalarAt(rows, i, j, r.value)
  {
    if |rows| == 0 then None
    else
      var first := ScalarScan(ItemsOf(rows[0]));
      if first.Some? then
        ghost var k :| 0 <= k < |ItemsOf(rows[0])| && !IsScalar(ItemsOf(rows[0])[k]) &&
                       first.value == RankError(ItemsOf(rows[0])[k]) &&
                       forall q :: 0 <= q < k ==> IsScalar(ItemsOf(rows[0])[q]);
        assert FirstNonScalarAt(rows, 0, k, first.value);
        first
      else
        var rest := RowsScan(rows[1..]);
        assert forall i :: 1 <= i < |rows| ==> rows[i] == rows[1..][i - 1];
        if rest.Some? then
          ghost var i, j :| FirstNonScalarAt(rows[1..], i, j, rest.value);
          FirstNonScalarBelow(rows, i, j, rest.value);
          rest
        else rest
  }

  /** ListVector: a rank-1 literal from a non-empty list of scalars sharing one free-index set. */
  function NewListVector(v: Value): (r: Result<TensorLiteral, TensorError>)
    ensures r.Ok? <==> v.List? && |v.items| > 0 &&
                       (forall k :: 0 <= k < |v.items| ==> IsScalar(v.items[k])) &&
                       (forall k :: 0 <= k < |v.items| ==> v.items[k].info.free == v.items[0].info.free)
    ensures r.Ok? ==> r.value.ListVector? && r.value.Rank() == 1 &&
                      r.value.freeIndices == v.items[0].info.free &&
                      |r.value.expressions| == |v.items| &&
                      forall k :: 0 <= k < |v.items| ==> r.value.expressions[k] == v.items[k].info
    ensures r.Err? && !v.List? ==> r.error == NotAList
    ensures r.Err? && v.List? && (exists k :: 0 <= k < |v.items| && !IsScalar(v.items[k])) ==>
              exists k :: 0 <= k < |v.items| && !IsScalar(v.items[k]) && r.error == RankError(v.items[k]) &&
                          forall j :: 0 <= j < k ==> IsScalar(v.items[j])
    ensures r.Err? && v.List? && (forall k :: 0 <= k < |v.items| ==> IsScalar(v.items[k])) ==>
              r.error == (if |v.items| == 0 then EmptyList else FreeIndexMismatch)
  {
    if !v.List? then Err(NotAList)
    else
      var items := v.items;
      var scan := ScalarScan(items);
      if scan.Some? then Err(scan.value)
      else if |items| == 0 then Err(EmptyList)
      else
        var eset := items[0].info.free;
        if forall k :: 0 <= k < |items| ==> items[k].info.free == eset then
          Ok(ListVector(seq(|items|, k requires 0 <= k < |items| => InfoOf(items[k])), eset))
        else Err(FreeIndexMismatch)
  }

  /** The entries of a list of lists, row by row. */
  function Rows(v: Value): seq<seq<ExprInfo>> {
    seq(|ItemsOf(v)|, i requires 0 <= i < |ItemsOf(v)| =>
      var row := ItemsOf(ItemsOf(v)[i]);
      seq(|row|, j requires 0 <= j < |row| => InfoOf(row[j])))
  }

  /** A non-empty list of lists whose rows all have the length of the first. */
  predicate RowsAligned(v: Value) {
    v.List? && |v.items| > 0 && (forall i :: 0 <= i < |v.items| ==> v.items[i].List?) &&
    forall i :: 0 <= i < |v.items| ==> |v.items[i].items| == |v.items[0].items|
  }

  /**
   * The ListMatrix checks that follow the shape checks: every entry scalar
   * (the first that is not raises), the first row non-empty, and one
   * free-index set throughout.
   */
  function AlignedListMatrix(v: Value): (r: Result<TensorLiteral, TensorError>)
    requires RowsAligned(v)
    ensures r.Ok? <==> AllEntriesScalar(v.items) && |v.items[0].items| > 0 &&
                       forall i, j :: 0 <= i < |v.items| && 0 <= j < |ItemsOf(v.items[i])| ==>
                         InfoOf(v.items[i].items[j]).free == InfoOf(v.items[0].items[0]).free
    ensures r.Ok? ==> r.value.ListMatrix? && r.value.Rank() == 2 &&
                      r.value.freeIndices == InfoOf(v.items[0].items[0]).free &&
                      r.value.rows == Rows(v)
    ensures r.Err? && !AllEntriesScalar(v.items) ==> exists i, j :: FirstNonScalarAt(v.items, i, j, r.error)
    ensures r.Err? && AllEntriesScalar(v.items) ==> r.error == (if |v.items[0].items| == 0 then EmptyList else FreeIndexMismatch)
  {
    var rows := v.items;
    var scan := RowsScan(rows);
    if scan.Some? then Err(scan.value)
    else if |rows[0].items| == 0 then Err(EmptyList)
    else
      var eset := InfoOf(rows[0].items[0]).free;
      if forall i, j :: 0 <= i < |rows| && 0 <= j < |rows[i].items| ==> InfoOf(rows[i].items[j]).free == eset then
        Ok(ListMatrix(Rows(v), eset))
      else Err(FreeIndexMismatch)
  }

  /**
   * ListMatrix: a rank-2 literal from a non-empty list of equally long,
   * non-empty rows of scalars sharing one free-index set.
   */
  function NewListMatrix(v: Value): (r: Result<TensorLiteral, TensorError>)
    ensures r.Ok? <==> v.List? && |v.items| > 0 &&
                       (forall i :: 0 <= i < |v.items| ==> v.items[i].List?) &&
                       (forall i :: 0 <= i < |v.items| ==> |v.items[i].items| == |v.items[0].items|) &&
                       |v.items[0].items| > 0 &&
                       (forall i, j :: 0 <= i < |v.items| && 0 <= j < |ItemsOf(v.items[i])| ==>
                          IsScalar(v.items[i].items[j]) && InfoOf(v.items[i].items[j]).free == InfoOf(v.items[0].items[0]).free)
    ensures r.Ok? ==> r.value.ListMatrix? && r.value.Rank() == 2 &&
                      r.value.freeIndices == InfoOf(v.items[0].items[0]).free &&
                      r.value.rows == Rows(v)
    ensures r.Err? && !v.List? ==> r.error == NotAList
    ensures r.Err? && v.List? && (exists i :: 0 <= i < |v.items| && !v.items[i].List?) ==> r.error == NotAListOfLists
    ensures r.Err? && v.List? && |v.items| == 0 ==> r.error == EmptyList
    ensures r == Err(InconsistentRows) <==>
              v.List? && |v.items| > 0 && (forall i :: 0 <= i < |v.items| ==> v.items[i].List?) &&
              exists i :: 0 <= i < |v.items| && |v.items[i].items| != |v.items[0].items|
    ensures r.Err? && RowsAligned(v) && !AllEntriesScalar(v.items) ==> exists i, j :: FirstNonScalarAt(v.items, i, j, r.error)
    ensures r.Err? && RowsAligned(v) && AllEntriesScalar(v.items) ==>
              r.error == (if |v.items[0].items| == 0 then EmptyList else FreeIndexMismatch)
  {
    if !v.List? then Err(NotAList)
    else
      var rows := v.items;
      if !(forall i :: 0 <= i < |rows| ==> rows[i].List?) then Err(NotAListOfLists)
      else if |rows| == 0 then Err(EmptyList)
      else
        var c := |rows[0].items|;
        if !(forall i :: 0 <= i < |rows| ==> |rows[i].items| == c) then Err(InconsistentRows)
        else AlignedListMatrix(v)
  }

  /** The set of indices given to `Tensor`. */
  function IndexSet(indices: seq<IndexItem>): set<Index> {
    set k | 0 <= k < |indices| && indices[k].Symbolic? :: indices[k].index
  }

  /**
   * Tensor: a literal of rank `|indices|` from a scalar expression and
   * symbolic indices that are all free in it; those indices are no longer free.
   */
  function NewTensor(v: Value, indices: seq<IndexItem>): (r: Result<TensorLiteral, TensorError>)
    ensures r.Ok? <==> IsScalar(v) && (forall k :: 0 <= k < |indices| ==> indices[k].Symbolic?) &&
                       IndexSet(indices) <= v.info.free
    ensures r.Ok? ==> r.value.Tensor? && r.value.Rank() == |indices| &&
                      r.value.expression == v.info && r.value.indices == indices &&
                      r.value.freeIndices == v.info.free - IndexSet(indices)
    ensures r.Err? ==> r.error == (if !v.Expression? then NotExpression
                                   else if v.info.rank != 0 then NotScalar
                                   else if exists k :: 0 <= k < |indices| && !indices[k].Symbolic? then NotAnIndex
                                   else IndexMismatch)
  {
    if !v.Expression? then Err(NotExpression)
    else if v.info.rank != 0 then Err(NotScalar)
    else if !(forall k :: 0 <= k < |indices| ==> indices[k].Symbolic?) then Err(NotAnIndex)
    else
      var eset := v.info.free;
      var given := IndexSet(indices);
      if !(given <= eset) then Err(IndexMismatch)
      else Ok(Tensor(v.info, indices, eset - given))
  }

  /** Vector: a ListVector without an index, a Tensor over the 1-tuple `(index,)` with one. */
  function Vector(expressions: Value, index: Option<IndexItem>): (r: Result<TensorLiteral, TensorError>)
    ensures index.None? ==> r == NewListVector(expressions)
    ensures index.Some? ==> r == NewTensor(expressions, [index.value])
  {
    if index.None? then NewListVector(expressions) else NewTensor(expressions, [index.value])
  }

  /** Matrix: a ListMatrix without indices, a Tensor over the given indices with them. */
  function Matrix(expressions: Value, indices: Option<seq<IndexItem>>): (r: Result<TensorLiteral, TensorError>)
    ensures indices.None? ==> r == NewListMatrix(expressions)
    ensures indices.Some? ==> r == NewTensor(expressions, indices.value)
  {
    if indices.None? then NewListMatrix(expressions) else NewTensor(expressions, indices.value)
  }

  /**
   * Every row of a valid ListMatrix is itself a valid ListVector with the
   * matrix's free indices and the matrix's row entries.
   */
  lemma MatrixRowsAreVectors(v: Value)
    requires NewListMatrix(v).Ok?
    ensures forall i :: 0 <= i < |v.items| ==>
              NewListVector(v.items[i]).Ok? &&
              NewListVector(v.items[i]).value.freeIndices == NewListMatrix(v).value.freeIndices &&
              NewListVector(v.items[i]).value.expressions == NewListMatrix(v).value.rows[i]
  {
  }

  /**
   * Conversely, a non-empty list of rows that are valid ListVectors of one
   * length and one free-index set is a valid ListMatrix.
   */
  lemma VectorsMakeMatrix(v: Value)
    requires v.List? && |v.items| > 0
    requires forall i :: 0 <= i < |v.items| ==> NewListVector(v.items[i]).Ok?
    requires forall i :: 0 <= i < |v.items| ==> |ItemsOf(v.items[i])| == |ItemsOf(v.items[0])|
    requires forall i :: 0 <= i < |v.items| ==>
               NewListVector(v.items[i]).value.freeIndices == NewListVector(v.items[0]).value.freeIndices
    ensures NewListMatrix(v).Ok?
    ensures NewListMatrix(v).value.freeIndices == NewListVector(v.items[0]).value.freeIndices
  {
  }

  /** A Tensor over all the free indices of a scalar leaves none free. */
  lemma TensorOverAllFreeIndices(e: ExprInfo, indices: seq<IndexItem>)
    requires e.rank == 0
    requires forall k :: 0 <= k < |indices| ==> indices[k].Symbolic?
    requires IndexSet(indices) == e.free
    ensures NewTensor(Expression(e), indices).Ok?
    ensures NewTensor(Expression(e), indices).value.AsExpr() == ExprInfo(|indices|, {})
  {
  }
}
