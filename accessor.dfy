/**
 * Accessor: the descriptor of one attribute of a class -- its getter and
 * setter, the class they were taken from and the object they are bound to.
 * The guarded setters of the four fields are modelled twice: as pure steps
 * on an AccessorState value (the specification) and as methods of the class
 * Accessor, proved to perform exactly those steps.
 */
module Accessors {
  import opened Errors
  import opened Classes
  import ReflectionUtil
  import opened AccessorNaming

  /** The four fields of an Accessor, as a value. */
  datatype AccessorState = AccessorState(
    owner: Option<Record>, ownerClass: Option<ClassName>,
    getter: Option<Method>, setter: Option<Method>)
  {
    /**
     * The invariant the guarded setters keep: a held getter is a getter, a
     * held setter is a setter, and when both are held they name the same
     * attribute and the getter returns the setter's parameter type.
     */
    predicate Valid() {
      && (getter.Some? ==> IsGetter(getter.value))
      && (setter.Some? ==> IsSetter(setter.value))
      && (getter.Some? && setter.Some? ==>
            && NameOf(getter.value) == NameOf(setter.value)
            && |setter.value.paramTypes| > 0
            && getter.value.returnType == setter.value.paramTypes[0])
    }

    /** The owner, when both are set, is an instance of the owner class. */
    predicate Bound(w: ClassWorld)
      requires w.WellFormed()
    {
      owner.Some? && ownerClass.Some? ==> ReflectionUtil.IsInstance(w, owner.value, ownerClass.value)
    }

    predicate IsReadable() { getter.Some? }
    predicate IsWriteable() { setter.Some? }
    predicate IsRW() { IsReadable() && IsWriteable() }
    predicate IsRO() { IsReadable() && !IsWriteable() }

    /** getName: the setter's attribute name when there is a setter, else the getter's, else null. */
    function Name(): (r: Option<string>)
      requires Valid()
      ensures r.None? <==> getter.None? && setter.None?
    {
      if setter.Some? then Some(NameOf(setter.value))
      else if getter.Some? then Some(NameOf(getter.value))
      else None
    }

    /**
     * getType: the getter's return type, else the setter's first parameter
     * type (out of bounds for a parameterless setter), else a
     * NullPointerException.
     */
    function Type(): (r: Result<ClassName>)
      ensures getter.Some? ==> r == Ok(getter.value.returnType)
      ensures getter.None? && setter.None? ==> r == Err(NullPointer)
      ensures getter.None? && setter.Some? ==>
        r == (if setter.value.paramTypes == [] then Err(IndexOutOfBounds) else Ok(setter.value.paramTypes[0]))
    {
      if getter.Some? then Ok(getter.value.returnType)
      else if setter.Some? then
        (if |setter.value.paramTypes| == 0 then Err(IndexOutOfBounds) else Ok(setter.value.paramTypes[0]))
      else Err(NullPointer)
    }

    /** isJavaType: the type is primitive (void included) or one of the boxed types, String or Date. */
    function IsJavaType(): (r: Result<bool>)
      ensures r.Ok? ==> Type().Ok? && (r.value <==> Type().value in Primitives + SimpleTypes)
      ensures r.Err? ==> Type().Err? && r.error == Type().error
    {
      var t :- Type();
      Ok(t in Primitives || t in SimpleTypes)
    }
  }

  /** The state of a freshly allocated Accessor, and the state reset() leaves. */
  const Empty := AccessorState(None, None, None, None)

  /** The getter or setter `m`, if held, is declared by `k` or by one of its superclasses. */
  predicate DeclaredWithin(w: ClassWorld, m: Option<Method>, k: ClassName)
    requires w.WellFormed()
  {
    m.None? || m.value.declaringClass == k ||
    m.value.declaringClass in ReflectionUtil.GetAllSuperclasses(w, Some(k), Some(ObjectClass))
  }

  /** setOwnerClass(c): a specification of its effect and of its exception. */
  function SetOwnerClassStep(w: ClassWorld, s: AccessorState, c: Option<ClassName>): (Outcome, AccessorState)
    requires w.WellFormed()
  {
    match c
    case None => (Pass, s.(ownerClass := None))
    case Some(k) =>
      if !DeclaredWithin(w, s.getter, k) || !DeclaredWithin(w, s.setter, k) then (Fail(IncompatibleClass), s)
      else if s.owner.None? || ReflectionUtil.IsInstance(w, s.owner.value, k) then (Pass, s.(ownerClass := c))
      else (Fail(IncompatibleClass), s)
  }

  /**
   * setOwner(o): null is always accepted; otherwise the owner must be an
   * instance of the owner class when there is one, and when there is none
   * the owner class becomes the owner's class -- a step that can still fail
   * after the owner has been stored.
   */
  function SetOwnerStep(w: ClassWorld, s: AccessorState, o: Option<Record>): (Outcome, AccessorState)
    requires w.WellFormed()
  {
    match o
    case None => (Pass, s.(owner := None))
    case Some(x) =>
      if s.ownerClass.None? then SetOwnerClassStep(w, s.(owner := o), Some(x.cls))
      else if ReflectionUtil.IsInstance(w, x, s.ownerClass.value) then (Pass, s.(owner := o))
      else (Fail(IncompatibleClass), s)
  }

  /** setGetter(m): null clears; a non-getter is invalid; a getter must be compatible with the held setter. */
  function SetGetterStep(s: AccessorState, m: Option<Method>): (Outcome, AccessorState) {
    match m
    case None => (Pass, s.(getter := None))
    case Some(g) =>
      if !IsGetter(g) then (Fail(InvalidAccessor), s)
      else match IsCompatible(m, s.setter)
        case Ok(true) => (Pass, s.(getter := m))
        case Ok(false) => (Fail(IncompatibleMethod), s)
        case Err(e) => (Fail(e), s)
  }

  /** setSetter(m): null clears; a non-setter is invalid; a setter must be compatible with the held getter. */
  function SetSetterStep(s: AccessorState, m: Option<Method>): (Outcome, AccessorState) {
    match m
    case None => (Pass, s.(setter := None))
    case Some(st) =>
      if !IsSetter(st) then (Fail(InvalidAccessor), s)
      else match IsCompatible(s.getter, m)
        case Ok(true) => (Pass, s.(setter := m))
        case Ok(false) => (Fail(IncompatibleMethod), s)
        case Err(e) => (Fail(e), s)
  }

  /**
   * The four-argument constructor: setOwner(owner); setOwnerClass(ownerClass)
   * only when owner is null; setGetter(getter); setSetter(setter) -- the
   * first exception aborts construction.
   */
  function ConstructStep(w: ClassWorld, o: Option<Record>, c: Option<ClassName>,
                         g: Option<Method>, st: Option<Method>): (Outcome, AccessorState)
    requires w.WellFormed()
  {
    var (r1, s1) := SetOwnerStep(w, Empty, o);
    if r1.Fail? then (r1, s1) else
    var (r2, s2) := if o.None? then SetOwnerClassStep(w, s1, c) else (Pass, s1);
    if r2.Fail? then (r2, s2) else
    var (r3, s3) := SetGetterStep(s2, g);
    if r3.Fail? then (r3, s3) else
    SetSetterStep(s3, st)
  }

  /** The guarded method setters keep the getter/setter invariant and leave the state unchanged when they fail. */
  lemma MethodStepsKeepValid(s: AccessorState, m: Option<Method>)
    requires s.Valid()
    ensures SetGetterStep(s, m).1.Valid() && SetSetterStep(s, m).1.Valid()
    ensures SetGetterStep(s, m).0.Fail? ==> SetGetterStep(s, m).1 == s
    ensures SetSetterStep(s, m).0.Fail? ==> SetSetterStep(s, m).1 == s
    ensures SetGetterStep(s, m).0 == Pass ==> SetGetterStep(s, m).1 == s.(getter := m)
    ensures SetSetterStep(s, m).0 == Pass ==> SetSetterStep(s, m).1 == s.(setter := m)
  {
  }

  /** A getter incompatible with the held setter is refused with IncompatibleMethodException. */
  lemma IncompatibleGetterRefused(s: AccessorState, g: Method)
    requires s.Valid() && IsGetter(g) && s.setter.Some?
    requires NameOf(g) != NameOf(s.setter.value)
    ensures SetGetterStep(s, Some(g)) == (Fail(IncompatibleMethod), s)
  {
  }

  /** The owner steps keep both invariants; setOwner can fail after storing the owner, and only then. */
  lemma OwnerStepsKeepInvariants(w: ClassWorld, s: AccessorState, o: Option<Record>, c: Option<ClassName>)
    requires w.WellFormed() && s.Valid() && s.Bound(w)
    ensures var (r, t) := SetOwnerClassStep(w, s, c); t.Valid() && t.Bound(w) && (r.Fail? ==> t == s)
    ensures var (r, t) := SetOwnerStep(w, s, o);
      t.Valid() && t.Bound(w) &&
      t.getter == s.getter && t.setter == s.setter &&
      (r == Pass ==> t.owner == o) &&
      (r.Fail? ==> t.ownerClass == s.ownerClass && (t.owner == s.owner || (s.ownerClass.None? && t.owner == o)))
  {
    if o.Some? && s.ownerClass.None? {
      assert ReflectionUtil.IsInstance(w, o.value, o.value.cls);
    }
  }

  /** The owner steps never touch getter or setter, and a successful setOwner stores the owner. */
  lemma OwnerStepsKeepMethods(w: ClassWorld, s: AccessorState, o: Option<Record>, c: Option<ClassName>)
    requires w.WellFormed()
    ensures var t := SetOwnerClassStep(w, s, c).1; t.getter == s.getter && t.setter == s.setter && t.owner == s.owner
    ensures var (r, t) := SetOwnerStep(w, s, o);
      t.getter == s.getter && t.setter == s.setter && (r == Pass ==> t.owner == o)
  {
  }

  /** When getter and setter are both held, getName and getType agree whichever side they read. */
  lemma BothSidesAgree(s: AccessorState)
    requires s.Valid() && s.IsRW()
    ensures s.Name() == Some(NameOf(s.getter.value))
    ensures s.Type() == Ok(s.setter.value.paramTypes[0])
  {
  }

  /** isRW and isRO split the readable descriptors; one with neither method has no name. */
  lemma AccessModes(s: AccessorState)
    requires s.Valid()
    ensures s.IsReadable() <==> s.IsRW() || s.IsRO()
    ensures !(s.IsRW() && s.IsRO())
    ensures s.IsRO() ==> s.Name() == Some(NameOf(s.getter.value))
    ensures s.Name().None? <==> !s.IsReadable() && !s.IsWriteable()
  {
  }

  /** A descriptor built only from a well-formed getter/setter pair is valid. */
  lemma ConstructedIsValid(w: ClassWorld, o: Option<Record>, c: Option<ClassName>, g: Option<Method>, st: Option<Method>)
    requires w.WellFormed()
    ensures ConstructStep(w, o, c, g, st).1.Valid()
    ensures ConstructStep(w, o, c, g, st).1.Bound(w)
  {
    OwnerStepsKeepInvariants(w, Empty, o, c);
    var (r1, s1) := SetOwnerStep(w, Empty, o);
    if r1 == Pass && o.None? {
      OwnerStepsKeepInvariants(w, s1, o, c);
    }
  }

  /** invokeGetter(obj): the getter's attribute of obj; no getter is a NullPointerException, a foreign obj an IllegalArgumentException. */
  function InvokeGetter(w: ClassWorld, s: AccessorState, obj: Record): (r: Result<Value>)
    requires w.WellFormed() && s.Valid()
    ensures r.Ok? <==> s.getter.Some? && ReflectionUtil.IsInstance(w, obj, s.getter.value.declaringClass)
    ensures r.Ok? ==> r.value == Field(obj, NameOf(s.getter.value))
  {
    match s.getter
    case None => Err(NullPointer)
    case Some(g) =>
      if !ReflectionUtil.IsInstance(w, obj, g.declaringClass) then Err(IllegalArgument)
      else Ok(Field(obj, NameOf(g)))
  }

  /**
   * The wrapper classes Method.invoke unwraps into each primitive parameter
   * type: the type's own wrapper and those of the narrower types a widening
   * primitive conversion accepts.
   */
  const Unwrapped: map<ClassName, set<ClassName>> :=
    map["boolean" := {"java.lang.Boolean"},
        "byte" := {"java.lang.Byte"},
        "short" := {"java.lang.Short", "java.lang.Byte"},
        "char" := {"java.lang.Character"},
        "int" := {"java.lang.Integer", "java.lang.Short", "java.lang.Byte", "java.lang.Character"},
        "long" := {"java.lang.Long", "java.lang.Integer", "java.lang.Short", "java.lang.Byte", "java.lang.Character"},
        "float" := {"java.lang.Float", "java.lang.Long", "java.lang.Integer", "java.lang.Short", "java.lang.Byte",
                    "java.lang.Character"},
        "double" := {"java.lang.Double", "java.lang.Float", "java.lang.Long", "java.lang.Integer", "java.lang.Short",
                     "java.lang.Byte", "java.lang.Character"}]

  /**
   * Whether Method.invoke accepts `v` for a parameter of type `t`: null only
   * for a reference type; a wrapper for a primitive type it unwraps into;
   * otherwise an instance of `t` -- its own class, a superclass of it, or an
   * interface of it.
   */
  predicate AcceptsArgument(w: ClassWorld, t: ClassName, v: Value)
    requires w.WellFormed()
  {
    if v == Null then t !in Primitives
    else if t in Primitives then t in Unwrapped && ClassOf(v) in Unwrapped[t]
    else
      t == ObjectClass || ClassOf(v) == t || t in ReflectionUtil.Walk(w, ClassOf(v), false) ||
      t in ReflectionUtil.AllInterfaces(w, ClassOf(v))
  }

  /**
   * Method.invoke of the setter with one argument: no setter is a
   * NullPointerException; a receiver of another class, another number of
   * parameters or an argument the parameter type does not accept is an
   * IllegalArgumentException; otherwise the setter's attribute of obj is
   * written.
   */
  function WriteWith(w: ClassWorld, setter: Option<Method>, obj: Record, v: Value): (r: Result<Record>)
    requires w.WellFormed()
    requires setter.Some? ==> IsSetter(setter.value)
    ensures setter.None? ==> r == Err(NullPointer)
    ensures setter.Some? ==>
      (r.Ok? <==> ReflectionUtil.IsInstance(w, obj, setter.value.declaringClass) && |setter.value.paramTypes| == 1
                  && AcceptsArgument(w, setter.value.paramTypes[0], v))
    ensures setter.Some? && r.Err? ==> r.error == IllegalArgument
    ensures r.Ok? ==> r.value.cls == obj.cls && Field(r.value, NameOf(setter.value)) == v
    ensures r.Ok? ==> forall n :: n != NameOf(setter.value) ==> Field(r.value, n) == Field(obj, n)
  {
    match setter
    case None => Err(NullPointer)
    case Some(m) =>
      if !ReflectionUtil.IsInstance(w, obj, m.declaringClass) then Err(IllegalArgument)
      else if |m.paramTypes| != 1 || !AcceptsArgument(w, m.paramTypes[0], v) then Err(IllegalArgument)
      else Ok(Record(obj.cls, obj.fields[NameOf(m) := v]))
  }

  /**
   * The argument invokeSetter passes to the setter: param as is when
   * ReflectionUtil.isCompatible(param, getType()) holds, converted
   * otherwise; a null param fails on param.getClass().
   */
  function SetterArgument(w: ClassWorld, host: Host, s: AccessorState, param: Value): (r: Result<Value>)
    requires w.WellFormed()
    ensures param == Null ==> r.Err?
    ensures r.Ok? && s.Type().Ok? && ReflectionUtil.IsCompatible(w, ClassOf(param), s.Type().value) ==> r.value == param
  {
    var t :- s.Type();
    if param == Null then Err(NullPointer)
    else if ReflectionUtil.IsCompatible(w, ClassOf(param), t) then Ok(param)
    else Convert(w, host, param, t)
  }

  /** invokeSetter(obj, param): obj with the setter's attribute set to the setter argument; nothing else changes. */
  function InvokeSetter(w: ClassWorld, host: Host, s: AccessorState, obj: Record, param: Value): (r: Result<Record>)
    requires w.WellFormed() && s.Valid()
    ensures r.Ok? ==> s.setter.Some? && SetterArgument(w, host, s, param).Ok? && r.value.cls == obj.cls
    ensures r.Ok? ==> Field(r.value, NameOf(s.setter.value)) == SetterArgument(w, host, s, param).value
    ensures r.Ok? ==> forall n :: n != NameOf(s.setter.value) ==> Field(r.value, n) == Field(obj, n)
    ensures param == Null ==> r.Err?
    ensures SetterArgument(w, host, s, param).Ok? && s.setter.Some? ==>
      (r.Ok? <==> ReflectionUtil.IsInstance(w, obj, s.setter.value.declaringClass)
                  && |s.setter.value.paramTypes| == 1
                  && AcceptsArgument(w, s.setter.value.paramTypes[0], SetterArgument(w, host, s, param).value))
    ensures SetterArgument(w, host, s, param).Ok? && s.setter.Some? && r.Err? ==> r.error == IllegalArgument
  {
    var v :- SetterArgument(w, host, s, param);
    WriteWith(w, s.setter, obj, v)
  }

  /** A parameter that reaches the setter as null (convert gives null) cannot be written into a primitive parameter. */
  lemma NullIntoPrimitive(w: ClassWorld, host: Host, s: AccessorState, obj: Record, param: Value)
    requires w.WellFormed() && s.Valid() && s.setter.Some?
    requires s.setter.value.paramTypes != [] && s.setter.value.paramTypes[0] in Primitives
    requires SetterArgument(w, host, s, param) == Ok(Null)
    ensures InvokeSetter(w, host, s, obj, param).Err?
  {
  }

  /**
   * The text "30" for an int setter: isConvertable lets it through (the
   * swapped test sees a String), convert gives null, and invoke refuses null
   * for the primitive parameter.
   */
  lemma TextIntoIntSetter(w: ClassWorld, host: Host, s: AccessorState, obj: Record)
    requires w.WellFormed() && s.Valid() && s.setter.Some? && s.setter.value.paramTypes == ["int"]
    requires "int" !in w.superclass && "int" !in w.interfaceTypes
    requires NumberClass !in w.interfaceTypes && NumberClass in w.superclass && w.superclass[NumberClass] == ObjectClass
    ensures SetterArgument(w, host, s, Text("30")) == Ok(Null)
    ensures InvokeSetter(w, host, s, obj, Text("30")).Err?
  {
    assert s.Type() == Ok("int");
    assert ReflectionUtil.Walk(w, NumberClass, true) == [ObjectClass];
    assert !ReflectionUtil.IsCompatible(w, StringClass, "int");
    assert !ReflectionUtil.IsCompatible(w, "int", NumberClass);
  }

  /**
   * A value that isCompatible lets through unconverted because its class is
   * a proper superclass of a (non-interface) parameter type is not an
   * instance of that type, and invoke refuses it.
   */
  lemma AncestorIntoSubclassSlot(w: ClassWorld, host: Host, s: AccessorState, obj: Record, param: Value)
    requires w.WellFormed() && s.Valid() && s.setter.Some? && |s.setter.value.paramTypes| == 1
    requires param != Null
    requires var t := s.setter.value.paramTypes[0];
      && t !in w.interfaceTypes && t != ObjectClass && t !in Primitives
      && ReflectionUtil.IsCompatible(w, ClassOf(param), t)
      && t !in ReflectionUtil.AllInterfaces(w, ClassOf(param))
    ensures SetterArgument(w, host, s, param) == Ok(param)
    ensures InvokeSetter(w, host, s, obj, param) == Err(IllegalArgument)
  {
    var t, c := s.setter.value.paramTypes[0], ClassOf(param);
    assert s.Type() == Ok(t);
    ReflectionUtil.CompatibleMeansAncestor(w, c, t);
    ReflectionUtil.WalkRanks(w, t, true);
    ReflectionUtil.WalkRanks(w, c, false);
    assert !AcceptsArgument(w, t, param);
  }

  /** Writing a directly compatible value and reading it back gives that value. */
  lemma SetThenGet(w: ClassWorld, host: Host, s: AccessorState, obj: Record, param: Value)
    requires w.WellFormed() && s.Valid() && s.IsRW()
    requires ReflectionUtil.IsInstance(w, obj, s.getter.value.declaringClass)
    requires param != Null && ReflectionUtil.IsCompatible(w, ClassOf(param), s.getter.value.returnType)
    requires InvokeSetter(w, host, s, obj, param).Ok?
    ensures InvokeGetter(w, s, InvokeSetter(w, host, s, obj, param).value) == Ok(param)
  {
  }

  /** Because isCompatible is irreflexive, a value of exactly the declared class (say Integer) cannot be set. */
  lemma SameClassValueRejected(w: ClassWorld, host: Host, s: AccessorState, obj: Record, param: Value)
    requires w.WellFormed() && s.Valid() && s.IsReadable()
    requires param != Null && ClassOf(param) == s.getter.value.returnType
    requires ClassOf(param) != StringClass && ClassOf(param) != ObjectClass && ClassOf(param) !in w.interfaceTypes
    ensures InvokeSetter(w, host, s, obj, param) == Err(IllegalArgument)
  {
    ReflectionUtil.CompatibleIrreflexive(w, ClassOf(param));
    SameClassNotConvertible(w, host, param);
  }

  /** The abstract-to-concrete collection classes of AccessorUtil's typeMap. */
  const TypeMap: map<ClassName, ClassName> :=
    map["java.util.List" := "java.util.ArrayList", "java.util.Map" := "java.util.HashMap",
        SetClass := "java.util.HashSet"]

  /** AccessorUtil.newInstance(type) for a collection type: an empty collection of the concrete class. */
  function NewCollection(w: ClassWorld, t: ClassName): (r: Result<Value>)
    ensures r.Ok? ==> r.value.Coll? && r.value.items == []
  {
    if t in TypeMap then Ok(Coll(TypeMap[t], []))
    else if t in w.interfaceTypes then Err(Instantiation)
    else Ok(Coll(t, []))
  }

  /**
   * setOrAddToAttribute(ac, entity, value): a non-collection attribute is
   * set; a collection attribute is first created if null, then `value` is
   * added to it, or all of value's elements when value is itself a
   * collection. A null accessor does nothing.
   */
  function SetOrAddToAttribute(w: ClassWorld, host: Host, ac: Option<AccessorState>, entity: Record, value: Value)
    : (r: Result<Record>)
    requires w.WellFormed()
    requires ac.Some? ==> ac.value.Valid()
    ensures ac.None? ==> r == Ok(entity)
    ensures r.Ok? ==> r.value.cls == entity.cls
  {
    match ac
    case None => Ok(entity)
    case Some(s) =>
      var t :- s.Type();
      // isImplementedByAny on a non-null class cannot fail
      var isColl := ReflectionUtil.IsImplementedByAny(w, CollectionClass, Some(t)).value;
      if !isColl then InvokeSetter(w, host, s, entity, value)
      else
        var current :- InvokeGetter(w, s, entity);
        var e1 :- if current == Null then
                    (var made :- NewCollection(w, t); InvokeSetter(w, host, s, entity, made))
                  else Ok(entity);
        if value == Null then Err(NullPointer)
        else
          var addAll := ReflectionUtil.IsImplementedByAny(w, CollectionClass, Some(ClassOf(value))).value;
          // e1 has entity's class, so reading it succeeds as the first read did
          var coll := InvokeGetter(w, s, e1).value;
          if coll == Null then Err(NullPointer)
          else if !coll.Coll? || (addAll && !value.Coll?) then Err(ClassCast)
          else
            var isSet := SetClass in ReflectionUtil.AllInterfaces(w, coll.collClass);
            var items := if addAll then AddAllItems(coll.items, value.items, isSet) else AddItem(coll.items, value, isSet);
            Ok(Record(e1.cls, e1.fields[NameOf(s.getter.value) := Coll(coll.collClass, items)]))
  }

  /** No element occurs twice, as in a Set. */
  predicate NoDuplicates(s: seq<Value>) {
    forall i, j :: 0 <= i < j < |s| ==> s[i] != s[j]
  }

  /**
   * Collection.add on the elements of a collection: a list appends `v`; a
   * set (a class implementing java.util.Set) adds it only when no equal
   * element is present.
   */
  function AddItem(items: seq<Value>, v: Value, isSet: bool): (r: seq<Value>)
    ensures !isSet ==> r == items + [v]
    ensures forall x :: x in r <==> x in items || x == v
    ensures isSet && NoDuplicates(items) ==> NoDuplicates(r)
    ensures isSet && v in items ==> r == items
  {
    if isSet && v in items then items else items + [v]
  }

  /** Collection.addAll: add each element of `more` in turn. */
  function AddAllItems(items: seq<Value>, more: seq<Value>, isSet: bool): seq<Value>
    decreases |more|
  {
    if more == [] then items else AddAllItems(AddItem(items, more[0], isSet), more[1..], isSet)
  }

  /**
   * addAll holds exactly the elements of both collections; a list appends
   * all of `more`, and a set adds no duplicates.
   */
  lemma AddAllItemsProperties(items: seq<Value>, more: seq<Value>, isSet: bool)
    ensures forall x :: x in AddAllItems(items, more, isSet) <==> x in items || x in more
    ensures !isSet ==> AddAllItems(items, more, isSet) == items + more
    ensures isSet && NoDuplicates(items) ==> NoDuplicates(AddAllItems(items, more, isSet))
  {
    AddAllMembers(items, more, isSet);
    if !isSet {
      AddAllAppends(items, more);
    }
    if isSet && NoDuplicates(items) {
      AddAllDistinct(items, more);
    }
  }

  lemma {:induction false} AddAllMembers(items: seq<Value>, more: seq<Value>, isSet: bool)
    ensures forall x :: x in AddAllItems(items, more, isSet) <==> x in items || x in more
    decreases |more|
  {
    if more != [] {
      AddAllMembers(AddItem(items, more[0], isSet), more[1..], isSet);
      assert forall x :: x in more <==> x == more[0] || x in more[1..] by {
        assert more == [more[0]] + more[1..];
      }
    }
  }

  lemma {:induction false} AddAllAppends(items: seq<Value>, more: seq<Value>)
    ensures AddAllItems(items, more, false) == items + more
    decreases |more|
  {
    if more != [] {
      AddAllAppends(items + [more[0]], more[1..]);
      assert items + [more[0]] + more[1..] == items + more by {
        assert more == [more[0]] + more[1..];
      }
    }
  }

  lemma {:induction false} AddAllDistinct(items: seq<Value>, more: seq<Value>)
    requires NoDuplicates(items)
    ensures NoDuplicates(AddAllItems(items, more, true))
    decreases |more|
  {
    if more != [] {
      AddAllDistinct(AddItem(items, more[0], true), more[1..]);
    }
  }

  /**
   * Adding one element to an existing collection attribute: a list gets it
   * appended, a set only when it does not hold it yet; nothing else changes.
   */
  lemma AddToExistingCollection(w: ClassWorld, host: Host, s: AccessorState, entity: Record, value: Value)
    requires w.WellFormed() && s.Valid() && s.IsReadable()
    requires ReflectionUtil.IsImplementedByAny(w, CollectionClass, Some(s.getter.value.returnType)) == Ok(true)
    requires ReflectionUtil.IsInstance(w, entity, s.getter.value.declaringClass)
    requires Field(entity, NameOf(s.getter.value)).Coll?
    requires value != Null && CollectionClass !in ReflectionUtil.AllInterfaces(w, ClassOf(value))
    ensures var name := NameOf(s.getter.value); var old_ := Field(entity, name);
      var isSet := SetClass in ReflectionUtil.AllInterfaces(w, old_.collClass);
      SetOrAddToAttribute(w, host, Some(s), entity, value) ==
        Ok(Record(entity.cls, entity.fields[name := Coll(old_.collClass,
          if isSet && value in old_.items then old_.items else old_.items + [value])]))
  {
  }

  /**
   * Adding a collection to an existing collection attribute adds each of its
   * elements: the result holds exactly the elements of both, a list gets
   * them all appended, and a set without duplicates stays without them.
   */
  lemma AddAllToExistingCollection(w: ClassWorld, host: Host, s: AccessorState, entity: Record, value: Value)
    requires w.WellFormed() && s.Valid() && s.IsReadable()
    requires ReflectionUtil.IsImplementedByAny(w, CollectionClass, Some(s.getter.value.returnType)) == Ok(true)
    requires ReflectionUtil.IsInstance(w, entity, s.getter.value.declaringClass)
    requires Field(entity, NameOf(s.getter.value)).Coll?
    requires value.Coll? && CollectionClass in ReflectionUtil.AllInterfaces(w, ClassOf(value))
    ensures var name := NameOf(s.getter.value); var old_ := Field(entity, name);
      var isSet := SetClass in ReflectionUtil.AllInterfaces(w, old_.collClass);
      var r := SetOrAddToAttribute(w, host, Some(s), entity, value);
      && r.Ok? && r.value.cls == entity.cls
      && (forall n :: n != name ==> Field(r.value, n) == Field(entity, n))
      && Field(r.value, name).Coll? && Field(r.value, name).collClass == old_.collClass
      && (forall x :: x in Field(r.value, name).items <==> x in old_.items || x in value.items)
      && (!isSet ==> Field(r.value, name).items == old_.items + value.items)
      && (isSet && NoDuplicates(old_.items) ==> NoDuplicates(Field(r.value, name).items))
  {
    var old_ := Field(entity, NameOf(s.getter.value));
    AddAllItemsProperties(old_.items, value.items, SetClass in ReflectionUtil.AllInterfaces(w, old_.collClass));
  }

  /** The Accessor object: four mutable fields behind guarded setters. */
  class Accessor {
    var owner: Option<Record>
    var ownerClass: Option<ClassName>
    var getter: Option<Method>
    var setter: Option<Method>

    function State(): AccessorState
      reads this
    {
      AccessorState(owner, ownerClass, getter, setter)
    }

    /** Allocation: every field null, as before the Java constructors' setter calls. */
    constructor ()
      ensures State() == Empty
    {
      owner, ownerClass, getter, setter := None, None, None, None;
    }

    method SetOwnerClass(w: ClassWorld, c: Option<ClassName>) returns (r: Outcome)
      requires w.WellFormed()
      modifies this
      ensures (r, State()) == SetOwnerClassStep(w, old(State()), c)
    {
      if c.Some? {
        var k := c.value;
        if getter.Some? && getter.value.declaringClass != k &&
           getter.value.declaringClass !in ReflectionUtil.GetAllSuperclasses(w, Some(k), Some(ObjectClass)) {
          return Fail(IncompatibleClass);
        }
        if setter.Some? && setter.value.declaringClass != k &&
           setter.value.declaringClass !in ReflectionUtil.GetAllSuperclasses(w, Some(k), Some(ObjectClass)) {
          return Fail(IncompatibleClass);
        }
        if owner.None? || ReflectionUtil.IsInstance(w, owner.value, k) {
          ownerClass := c;
          r := Pass;
        } else {
          r := Fail(IncompatibleClass);
        }
      } else {
        ownerClass := c;
        r := Pass;
      }
    }

    method SetOwner(w: ClassWorld, o: Option<Record>) returns (r: Outcome)
      requires w.WellFormed()
      modifies this
      ensures (r, State()) == SetOwnerStep(w, old(State()), o)
    {
      if o.Some? {
        if ownerClass.None? || ReflectionUtil.IsInstance(w, o.value, ownerClass.value) {
          owner := o;
        } else {
          return Fail(IncompatibleClass);
        }
        if ownerClass.None? {
          r := SetOwnerClass(w, Some(o.value.cls));
        } else {
          r := Pass;
        }
      } else {
        owner := o;
        r := Pass;
      }
    }

    method SetGetter(m: Option<Method>) returns (r: Outcome)
      modifies this
      ensures (r, State()) == SetGetterStep(old(State()), m)
    {
      if m.Some? {
        if IsGetter(m.value) {
          var compatible := IsCompatible(m, setter);
          if compatible == Ok(true) {
            getter := m;
            r := Pass;
          } else if compatible == Ok(false) {
            r := Fail(IncompatibleMethod);
          } else {
            r := Fail(compatible.error);
          }
        } else {
          r := Fail(InvalidAccessor);
        }
      } else {
        getter := m;
        r := Pass;
      }
    }

    method SetSetter(m: Option<Method>) returns (r: Outcome)
      modifies this
      ensures (r, State()) == SetSetterStep(old(State()), m)
    {
      if m.Some? {
        if IsSetter(m.value) {
          var compatible := IsCompatible(getter, m);
          if compatible == Ok(true) {
            setter := m;
            r := Pass;
          } else if compatible == Ok(false) {
            r := Fail(IncompatibleMethod);
          } else {
            r := Fail(compatible.error);
          }
        } else {
          r := Fail(InvalidAccessor);
        }
      } else {
        setter := m;
        r := Pass;
      }
    }

    /** reset(): getter, setter, owner and owner class all become null. */
    method Reset()
      modifies this
      ensures State() == Empty
    {
      getter := None;
      setter := None;
      owner := None;
      ownerClass := None;
    }
  }

  /** new Accessor(owner, ownerClass, getter, setter); an exception means no object. */
  method NewAccessor(w: ClassWorld, o: Option<Record>, c: Option<ClassName>, g: Option<Method>, st: Option<Method>)
    returns (r: Result<Accessor>)
    requires w.WellFormed()
    ensures r.Ok? ==> fresh(r.value) && ConstructStep(w, o, c, g, st) == (Pass, r.value.State())
    ensures r.Err? ==> ConstructStep(w, o, c, g, st).0 == Fail(r.error)
  {
    var a := new Accessor();
    var out := a.SetOwner(w, o);
    if out == Pass && o.None? {
      out := a.SetOwnerClass(w, c);
    }
    if out == Pass {
      out := a.SetGetter(g);
    }
    if out == Pass {
      out := a.SetSetter(st);
    }
    if out.Fail? {
      return Err(out.error);
    }
    return Ok(a);
  }

  /** new Accessor(ownerClass, getter, setter). */
  method NewAccessorForClass(w: ClassWorld, c: Option<ClassName>, g: Option<Method>, st: Option<Method>)
    returns (r: Result<Accessor>)
    requires w.WellFormed()
    ensures r.Ok? ==> fresh(r.value) && ConstructStep(w, None, c, g, st) == (Pass, r.value.State())
    ensures r.Err? ==> ConstructStep(w, None, c, g, st).0 == Fail(r.error)
  {
    r := NewAccessor(w, None, c, g, st);
  }

  /** new Accessor(owner, getter, setter). */
  method NewAccessorForOwner(w: ClassWorld, o: Record, g: Option<Method>, st: Option<Method>)
    returns (r: Result<Accessor>)
    requires w.WellFormed()
    ensures r.Ok? ==> fresh(r.value) && ConstructStep(w, Some(o), None, g, st) == (Pass, r.value.State())
    ensures r.Err? ==> ConstructStep(w, Some(o), None, g, st).0 == Fail(r.error)
  {
    r := NewAccessor(w, Some(o), None, g, st);
  }
}
