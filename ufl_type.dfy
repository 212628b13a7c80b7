/**
 * The expression type registry: the step every expression class goes
 * through when it is defined.  It appends the class to global tables,
 * gives it a typecode and a handler name, resolves its `is_terminal` and
 * `num_ops` traits (partly from its base classes) and rejects classes
 * whose traits are inconsistent.
 */
module UflType {
  import opened Wrappers

  /**
   * One entry of a class's method resolution order as the registration
   * step sees it.  The trait fields hold what `getattr(entry, name)` gives
   * at that moment (a value inherited by the entry included); `None`
   * stands for an attribute that is absent or set to `None`, except for
   * `isAbstract`, where `None` means the attribute is absent.
   */
  datatype BaseClass = BaseClass(
    name: string,
    isExpr: bool,              // the entry is Expr itself
    subclassOfExpr: bool,      // issubclass(entry, Expr)
    isAbstract: Option<bool>,  // entry._ufl_is_abstract_, None when absent
    hasOwnSlots: bool,         // "__slots__" in entry.__dict__
    isTerminal: Option<bool>,  // entry._ufl_is_terminal_
    numOps: Option<nat>)       // entry._ufl_num_ops_

  /** A class being registered, with the arguments given to the decorator. */
  datatype ClassDef = ClassDef(
    name: string,
    mro: seq<BaseClass>,       // cls.mro(): mro[0] is the class itself, the last entry is object
    markedNoSlots: bool,       // "_ufl_noslots_" in cls.__dict__
    languageFunction: Option<string>,  // cls._ufl_function_, when the class has one
    isAbstract: bool,
    isTerminal: Option<bool>,
    isShaping: bool,
    numOps: Option<nat>,
    unop: Option<string>,
    binop: Option<string>,
    rbinop: Option<string>)
  {
    /** `"__slots__" in cls.__dict__`, read from the class's own entry at the head of its MRO. */
    predicate OwnSlots() {
      |mro| > 0 && mro[0].hasOwnSlots
    }
  }

  /** The traits a registration assigns to the class. */
  datatype Traits = Traits(
    isAbstract: bool,
    isShaping: bool,
    handlerName: string,
    typecode: nat,
    isTerminal: Option<bool>,
    numOps: Option<nat>)

  /** The reasons a registration raises. */
  datatype RegistrationError =
    | BaseNotAbstractSubclass(base: string)
    | MissingAbstractAttribute(base: string)
    | MissingSlots
    | BaseMissingSlots(base: string)
    | MissingTerminalTrait
    | InconsistentTables
    | MissingNumOps
    | TerminalWithOperands

  /** The `_ufl_is_terminal_` attribute of an entry. */
  function TerminalOf(b: BaseClass): Option<bool> {
    b.isTerminal
  }

  /** The `_ufl_num_ops_` attribute of an entry. */
  function NumOpsOf(b: BaseClass): Option<nat> {
    b.numOps
  }

  /** Python truthiness of an optional boolean trait. */
  predicate Truthy(b: Option<bool>) {
    b == Some(true)
  }

  /** Python truthiness of an optional operator name. */
  predicate Named(op: Option<string>) {
    op.Some? && op.value != ""
  }

  /**
   * The first value of an attribute along the resolution order that is
   * present and not `None`, or `None` when there is none.
   */
  function FirstSet<T>(mro: seq<BaseClass>, attr: BaseClass -> Option<T>): (r: Option<T>)
    ensures r.None? <==> forall i :: 0 <= i < |mro| ==> attr(mro[i]).None?
    ensures r.Some? ==> exists i :: 0 <= i < |mro| && attr(mro[i]) == r &&
                                    forall j :: 0 <= j < i ==> attr(mro[j]).None?
  {
    if |mro| == 0 then None
    else if attr(mro[0]).Some? then attr(mro[0])
    else
      var rest := FirstSet(mro[1..], attr);
      assert forall i :: 1 <= i < |mro| ==> mro[i] == mro[1..][i - 1];
      rest
  }

  /** get_base_attr: the search loop over the resolution order. */
  method GetBaseAttr<T>(mro: seq<BaseClass>, attr: BaseClass -> Option<T>) returns (r: Option<T>)
    ensures r == FirstSet(mro, attr)
  {
    var i := 0;
    while i < |mro|
      invariant 0 <= i <= |mro|
      invariant FirstSet(mro, attr) == FirstSet(mro[i..], attr)
    {
      if attr(mro[i]).Some? {
        return attr(mro[i]);
      }
      assert mro[i..][1..] == mro[i + 1..];
      i := i + 1;
    }
    return None;
  }

  /** Entry `i` comes before Expr in the resolution order. */
  predicate BeforeExpr(mro: seq<BaseClass>, i: int)
    requires 0 <= i < |mro|
  {
    forall j :: 0 <= j <= i ==> !mro[j].isExpr
  }

  /** The condition under which the hierarchy check lets an entry pass. */
  predicate HierarchyOk(b: BaseClass) {
    b.subclassOfExpr || b.isAbstract == Some(false)
  }

  /**
   * The hierarchy check: walk the resolution order up to Expr and raise
   * at the first entry that is not an Expr subclass and is marked abstract
   * (or has no abstract marker at all).
   */
  function CheckHierarchyFrom(mro: seq<BaseClass>): (r: Outcome<RegistrationError>)
    ensures r.Pass? <==> forall i :: 0 <= i < |mro| && BeforeExpr(mro, i) ==> HierarchyOk(mro[i])
    ensures r.Fail? ==> exists i :: 0 <= i < |mro| && BeforeExpr(mro, i) && !HierarchyOk(mro[i]) &&
                          (forall j :: 0 <= j < i ==> HierarchyOk(mro[j])) &&
                          r.error == (if mro[i].isAbstract.None? then MissingAbstractAttribute(mro[i].name)
                                      else BaseNotAbstractSubclass(mro[i].name))
  {
    if |mro| == 0 || mro[0].isExpr then
      Pass
    else if !HierarchyOk(mro[0]) then
      assert BeforeExpr(mro, 0);
      if mro[0].isAbstract.None? then Fail(MissingAbstractAttribute(mro[0].name))
      else Fail(BaseNotAbstractSubclass(mro[0].name))
    else
      var rest := CheckHierarchyFrom(mro[1..]);
      assert forall i :: 1 <= i < |mro| ==> (BeforeExpr(mro, i) <==> BeforeExpr(mro[1..], i - 1));
      rest
  }

  /** The resolution order as the hierarchy check sees it: the class's own abstract marker was just set. */
  function MarkedMro(c: ClassDef): (mro: seq<BaseClass>)
    ensures |mro| == |c.mro|
    ensures |mro| > 0 ==> mro[0] == c.mro[0].(isAbstract := Some(c.isAbstract)) && mro[1..] == c.mro[1..]
  {
    if |c.mro| == 0 then [] else [c.mro[0].(isAbstract := Some(c.isAbstract))] + c.mro[1..]
  }

  /** The first entry of a list of bases that has no `__slots__` of its own. */
  function FirstWithoutSlots(bases: seq<BaseClass>): (r: Option<string>)
    ensures r.None? <==> forall i :: 0 <= i < |bases| ==> bases[i].hasOwnSlots
    ensures r.Some? ==> exists i :: 0 <= i < |bases| && !bases[i].hasOwnSlots && r.value == bases[i].name &&
                          forall j :: 0 <= j < i ==> bases[j].hasOwnSlots
  {
    if |bases| == 0 then None
    else if !bases[0].hasOwnSlots then Some(bases[0].name)
    else
      var rest := FirstWithoutSlots(bases[1..]);
      assert forall i :: 1 <= i < |bases| ==> bases[i] == bases[1..][i - 1];
      rest
  }

  /** The bases strictly between the class and `object`: `cls.mro()[1:-1]`. */
  function MiddleBases(mro: seq<BaseClass>): (r: seq<BaseClass>)
    ensures |mro| >= 2 ==> r == mro[1..|mro| - 1]
    ensures |mro| < 2 ==> r == []
  {
    if |mro| < 2 then [] else mro[1..|mro| - 1]
  }

  /**
   * The `__slots__` check: unless the class is marked `_ufl_noslots_`, it
   * and every base between it and `object` must define `__slots__`.
   */
  function CheckSlots(c: ClassDef): (r: Outcome<RegistrationError>)
    ensures r.Pass? <==> c.markedNoSlots ||
                         (c.OwnSlots() && forall i :: 1 <= i < |c.mro| - 1 ==> c.mro[i].hasOwnSlots)
    ensures r == Fail(MissingSlots) <==> !c.markedNoSlots && !c.OwnSlots()
    ensures r.Fail? && r.error != MissingSlots ==> r.error == BaseMissingSlots(FirstWithoutSlots(MiddleBases(c.mro)).value)
    ensures r.Fail? && r.error != MissingSlots ==>
              exists i :: 1 <= i < |c.mro| - 1 && !c.mro[i].hasOwnSlots && r.error == BaseMissingSlots(c.mro[i].name) &&
                          forall j :: 1 <= j < i ==> c.mro[j].hasOwnSlots
  {
    if c.markedNoSlots then Pass
    else if !c.OwnSlots() then Fail(MissingSlots)
    else
      var bases := MiddleBases(c.mro);
      assert forall i :: 1 <= i < |c.mro| - 1 ==> c.mro[i] == bases[i - 1];
      match FirstWithoutSlots(bases)
      case None => Pass
      case Some(b) => Fail(BaseMissingSlots(b))
  }

  /** The checks that raise before the tables change: the hierarchy check, then the slots check. */
  function Admission(c: ClassDef): Outcome<RegistrationError> {
    match CheckHierarchyFrom(MarkedMro(c))
    case Fail(e) => Fail(e)
    case Pass => CheckSlots(c)
  }

  /**
   * The `is_terminal` trait: registration fails when it is omitted and no
   * base supplies one; otherwise the stored trait is the explicit argument,
   * even when that is `None` and a base supplies a value.
   */
  function ResolveTerminal(c: ClassDef): (r: Result<Option<bool>, RegistrationError>)
    ensures r.Err? <==> c.isTerminal.None? && forall i :: 0 <= i < |c.mro| ==> c.mro[i].isTerminal.None?
    ensures r.Err? ==> r.error == MissingTerminalTrait
    ensures r.Ok? ==> r.value == c.isTerminal
  {
    if c.isTerminal.None? && FirstSet(c.mro, TerminalOf).None? then
      Err(MissingTerminalTrait)
    else
      Ok(c.isTerminal)
  }

  /**
   * The `num_ops` trait: the explicit value; else 0 for a (truthy) terminal,
   * 1 with a unary operator, 2 with a binary or reflected binary operator;
   * else the first value a base supplies.
   */
  function ResolveNumOps(c: ClassDef, terminal: Option<bool>): (r: Option<nat>)
    ensures c.numOps.Some? ==> r == c.numOps
    ensures c.numOps.None? && Truthy(terminal) ==> r == Some(0)
    ensures c.numOps.None? && !Truthy(terminal) && Named(c.unop) ==> r == Some(1)
    ensures c.numOps.None? && !Truthy(terminal) && !Named(c.unop) && (Named(c.binop) || Named(c.rbinop)) ==> r == Some(2)
    ensures r.None? <==> c.numOps.None? && !Truthy(terminal) && !Named(c.unop) && !Named(c.binop) &&
                         !Named(c.rbinop) && forall i :: 0 <= i < |c.mro| ==> c.mro[i].numOps.None?
  {
    if c.numOps.Some? then c.numOps
    else if Truthy(terminal) then Some(0)
    else if Named(c.unop) then Some(1)
    else if Named(c.binop) || Named(c.rbinop) then Some(2)
    else FirstSet(c.mro, NumOpsOf)
  }

  /** The global tables every registration appends to (class attributes of Expr). */
  class Registry {
    /** camel2underscore: the handler name derived from a class name. */
    const handlerOf: string -> string
    var classes: seq<ClassDef>            // Expr._ufl_all_classes_
    var handlerNames: set<string>         // Expr._ufl_all_handler_names_
    var numTypecodes: nat                 // Expr._ufl_num_typecodes_
    var initCounts: seq<int>              // Expr._ufl_obj_init_counts_
    var delCounts: seq<int>               // Expr._ufl_obj_del_counts_
    var languageOperators: map<string, string>  // Expr._ufl_language_operators_

    /** The assertion the registration makes after every append. */
    predicate Consistent()
      reads this
    {
      numTypecodes == |handlerNames| && numTypecodes == |classes| &&
      numTypecodes == |initCounts| && numTypecodes == |delCounts|
    }

    constructor (handlerOf: string -> string)
      ensures this.handlerOf == handlerOf
      ensures classes == [] && handlerNames == {} && numTypecodes == 0
      ensures initCounts == [] && delCounts == [] && languageOperators == map[]
      ensures Consistent()
    {
      this.handlerOf := handlerOf;
      classes, handlerNames, numTypecodes := [], {}, 0;
      initCounts, delCounts, languageOperators := [], [], map[];
    }

    /** Appends the class and its handler name and consumes a typecode. */
    method AddIdentity(c: ClassDef) returns (typecode: nat)
      modifies this`classes, this`handlerNames, this`numTypecodes
      ensures typecode == old(numTypecodes)
      ensures classes == old(classes) + [c]
      ensures handlerNames == old(handlerNames) + {handlerOf(c.name)}
      ensures numTypecodes == old(numTypecodes) + 1
    {
      classes := classes + [c];
      handlerNames := handlerNames + {handlerOf(c.name)};
      typecode := numTypecodes;
      numTypecodes := numTypecodes + 1;
    }

    /** Records the class's language operator and appends its two object counters. */
    method AddCountersAndOperator(c: ClassDef)
      modifies this`initCounts, this`delCounts, this`languageOperators
      ensures initCounts == old(initCounts) + [0]
      ensures delCounts == old(delCounts) + [0]
      ensures languageOperators == (if !c.isAbstract && c.languageFunction.Some?
                                    then old(languageOperators)[handlerOf(c.name) := c.languageFunction.value]
                                    else old(languageOperators))
    {
      if !c.isAbstract && c.languageFunction.Some? {
        languageOperators := languageOperators[handlerOf(c.name) := c.languageFunction.value];
      }
      initCounts := initCounts + [0];
      delCounts := delCounts + [0];
    }

    /** The `_ufl_type_decorator_` step for one class. */
    method Register(c: ClassDef) returns (r: Result<Traits, RegistrationError>)
      modifies this
      // The hierarchy and slots checks raise before any table changes.
      ensures Admission(c).Fail? ==> r == Err(Admission(c).error) && unchanged(this)
      // Past them, the class, its handler name and a typecode are added whatever follows.
      ensures Admission(c).Pass? ==>
                && classes == old(classes) + [c]
                && handlerNames == old(handlerNames) + {handlerOf(c.name)}
                && numTypecodes == old(numTypecodes) + 1
      // A missing is_terminal trait raises before the count lists grow.
      ensures Admission(c).Pass? && ResolveTerminal(c).Err? ==>
                && r == Err(MissingTerminalTrait)
                && initCounts == old(initCounts) && delCounts == old(delCounts)
                && languageOperators == old(languageOperators)
      ensures Admission(c).Pass? && ResolveTerminal(c).Ok? ==>
                && initCounts == old(initCounts) + [0]
                && delCounts == old(delCounts) + [0]
                && languageOperators == (if !c.isAbstract && c.languageFunction.Some?
                                         then old(languageOperators)[handlerOf(c.name) := c.languageFunction.value]
                                         else old(languageOperators))
                && r == LateChecks(c, handlerOf(c.name), ResolveTerminal(c).value, old(numTypecodes), Consistent())
      // The tables stay equal in size exactly when the handler name is new.
      ensures (old(Consistent()) && Admission(c).Pass? &&
               ResolveTerminal(c).Ok?) ==> (Consistent() <==> handlerOf(c.name) !in old(handlerNames))
      ensures r.Ok? ==> Consistent() && r.value.typecode == old(numTypecodes) && classes[r.value.typecode] == c
    {
      var admission := Admission(c);
      if admission.Fail? {
        return Err(admission.error);
      }

      var handler := handlerOf(c.name);
      var typecode := AddIdentity(c);
      r := ResolveTraits(c, typecode);
      if handler in old(handlerNames) {
        assert handlerNames == old(handlerNames);
      } else {
        assert |handlerNames| == |old(handlerNames)| + 1;
      }
      if r.Ok? {
        assert classes[typecode] == c;
      }
    }

    /**
     * The second half of the registration: resolve `is_terminal` and
     * `num_ops`, record the language operator, append the two object
     * counters, assert the tables agree and run the late trait checks.
     */
    method ResolveTraits(c: ClassDef, typecode: nat) returns (r: Result<Traits, RegistrationError>)
      modifies this`initCounts, this`delCounts, this`languageOperators
      ensures ResolveTerminal(c).Err? ==>
                && r == Err(MissingTerminalTrait)
                && initCounts == old(initCounts) && delCounts == old(delCounts)
                && languageOperators == old(languageOperators)
      ensures ResolveTerminal(c).Ok? ==>
                && initCounts == old(initCounts) + [0]
                && delCounts == old(delCounts) + [0]
                && languageOperators == (if !c.isAbstract && c.languageFunction.Some?
                                         then old(languageOperators)[handlerOf(c.name) := c.languageFunction.value]
                                         else old(languageOperators))
                && r == LateChecks(c, handlerOf(c.name), c.isTerminal, typecode, Consistent())
    {
      var inherited := GetBaseAttr(c.mro, TerminalOf);
      if c.isTerminal.None? && inherited.None? {
        return Err(MissingTerminalTrait);
      }
      var terminal := c.isTerminal;

      var ops := c.numOps;
      if ops.None? {
        if Truthy(terminal) {
          ops := Some(0);
        } else if Named(c.unop) {
          ops := Some(1);
        } else if Named(c.binop) || Named(c.rbinop) {
          ops := Some(2);
        }
      }
      if ops.None? {
        ops := GetBaseAttr(c.mro, NumOpsOf);
      }
      assert ops == ResolveNumOps(c, terminal);

      AddCountersAndOperator(c);
      var consistent := numTypecodes == |handlerNames| && numTypecodes == |classes| &&
                        numTypecodes == |initCounts| && numTypecodes == |delCounts|;
      r := LateChecks(c, handlerOf(c.name), terminal, typecode, consistent);
    }
  }

  /**
   * What a registration that got past the trait resolution reports: the
   * table assertion first, then the two late trait checks, else the traits
   * with the typecode the counter held before the call.
   */
  function LateChecks(c: ClassDef, handler: string, terminal: Option<bool>, typecode: nat, consistent: bool)
    : (r: Result<Traits, RegistrationError>)
    ensures r.Ok? <==> consistent && (c.isAbstract || ResolveNumOps(c, terminal).Some?) &&
                       (Truthy(terminal) ==> ResolveNumOps(c, terminal) == Some(0))
    ensures r.Ok? ==> r.value.typecode == typecode && r.value.handlerName == handler &&
                      r.value.isTerminal == terminal &&
                      r.value.numOps == ResolveNumOps(c, terminal)
    ensures !consistent ==> r == Err(InconsistentTables)
  {
    var ops := ResolveNumOps(c, terminal);
    if !consistent then Err(InconsistentTables)
    else if !c.isAbstract && ops.None? then Err(MissingNumOps)
    else if Truthy(terminal) && ops != Some(0) then Err(TerminalWithOperands)
    else Ok(Traits(c.isAbstract, c.isShaping, handler, typecode, terminal, ops))
  }
}
