/**
 * The static, side-effect-free part of AccessorUtil: recognising getters and
 * setters by their names, deriving attribute names, the getter/setter
 * compatibility test, and the best-effort value conversion used by setters.
 */
module AccessorNaming {
  import opened Errors
  import opened Classes
  import ReflectionUtil

  predicate StartsWith(s: string, prefix: string) {
    |prefix| <= |s| && s[..|prefix|] == prefix
  }

  /**
   * isGetter: the name starts with "get" or "is" and there are no
   * parameters (a reflected return type is never null, void included).
   */
  predicate IsGetter(m: Method) {
    (StartsWith(m.name, "get") || StartsWith(m.name, "is")) && |m.paramTypes| == 0
  }

  /**
   * isSetter: the name starts with "set". Its parameter clause,
   * `getParameterTypes() != null || ...`, always holds, so the number of
   * parameters is not checked.
   */
  predicate IsSetter(m: Method) {
    StartsWith(m.name, "set")
  }

  predicate IsAccessor(m: Method) {
    IsGetter(m) || IsSetter(m)
  }

  /** No method is both a getter and a setter: "get" and "is" do not begin with "set". */
  lemma GetterIsNotSetter(m: Method)
    ensures IsGetter(m) ==> !IsSetter(m)
    ensures IsAccessor(m) <==> IsGetter(m) || IsSetter(m)
  {
    if IsSetter(m) {
      assert m.name[0] == m.name[..3][0] == 's';
    }
  }

  predicate IsUpper(c: char) { 'A' <= c <= 'Z' }

  /** String.toLowerCase on one character, for ASCII letters. */
  function ToLower(c: char): (r: char)
    ensures !IsUpper(c) ==> r == c
  {
    if IsUpper(c) then (c as int - 'A' as int + 'a' as int) as char else c
  }

  function ToUpper(c: char): char {
    if 'a' <= c <= 'z' then (c as int - 'a' as int + 'A' as int) as char else c
  }

  function Decapitalize(s: string): string {
    if s == "" then "" else [ToLower(s[0])] + s[1..]
  }

  function Capitalize(s: string): string {
    if s == "" then "" else [ToUpper(s[0])] + s[1..]
  }

  /** Length of the accessor prefix getAttributeName removes. */
  function PrefixLength(name: string): nat {
    if StartsWith(name, "set") || StartsWith(name, "get") then 3 else 2
  }

  /**
   * getAttributeName: drop "set"/"get" (or "is") and lower-case the first
   * remaining character. For a method that is not an accessor `name` stays
   * null and `name.equals("")` raises a NullPointerException.
   */
  function GetAttributeName(m: Method): (r: Result<string>)
    ensures r.Err? <==> !IsAccessor(m)
    ensures r.Err? ==> r.error == NullPointer
    ensures r.Ok? ==>
      (PrefixLength(m.name) <= |m.name| &&
       |r.value| == |m.name| - PrefixLength(m.name) &&
       (r.value != "" ==>
          r.value[0] == ToLower(m.name[PrefixLength(m.name)]) &&
          r.value[1..] == m.name[PrefixLength(m.name) + 1..]))
  {
    if !IsAccessor(m) then Err(NullPointer)
    else Ok(Decapitalize(m.name[PrefixLength(m.name)..]))
  }

  /** The attribute name of an accessor (getAttributeName cannot fail on one). */
  function NameOf(m: Method): string
    requires IsAccessor(m)
  {
    GetAttributeName(m).value
  }

  /**
   * Bean naming round trip: prefixing "get", "is" or "set" to the
   * capitalised attribute name and taking getAttributeName gives the
   * attribute back, when the name does not start with an upper-case letter.
   */
  lemma BeanNameRoundTrip(attr: string, cls: ClassName, t: ClassName, params: seq<ClassName>)
    requires attr == "" || !IsUpper(attr[0])
    ensures GetAttributeName(Method("get" + Capitalize(attr), cls, t, [])) == Ok(attr)
    ensures GetAttributeName(Method("is" + Capitalize(attr), cls, t, [])) == Ok(attr)
    ensures GetAttributeName(Method("set" + Capitalize(attr), cls, t, params)) == Ok(attr)
  {
    var cap := Capitalize(attr);
    assert ("get" + cap)[..3] == "get" && ("get" + cap)[3..] == cap;
    assert ("set" + cap)[..3] == "set" && ("set" + cap)[3..] == cap;
    assert ("is" + cap)[..2] == "is" && ("is" + cap)[2..] == cap;
    assert !StartsWith("is" + cap, "get") && !StartsWith("is" + cap, "set") by {
      assert ("is" + cap)[1] == 's';
    }
    if attr != "" {
      assert ToLower(ToUpper(attr[0])) == attr[0];
      assert Decapitalize(cap) == attr;
    }
  }

  /** getAge() names the attribute "age". */
  lemma AttributeNameExamples(cls: ClassName)
    ensures GetAttributeName(Method("getAge", cls, "int", [])) == Ok("age")
  {
    BeanNameRoundTrip("age", cls, "int", []);
    assert "get" + Capitalize("age") == "getAge";
  }

  /** isActive() names the boolean attribute "active". */
  lemma BooleanAttributeNameExample(cls: ClassName)
    ensures GetAttributeName(Method("isActive", cls, "boolean", [])) == Ok("active")
  {
    BeanNameRoundTrip("active", cls, "boolean", []);
    assert "is" + Capitalize("active") == "isActive";
  }

  /** A bare "get" gives the empty name; a method without accessor prefix fails. */
  lemma AttributeNameEdgeCases(cls: ClassName)
    ensures GetAttributeName(Method("get", cls, "int", [])) == Ok("")
    ensures GetAttributeName(Method("size", cls, "int", [])) == Err(NullPointer)
  {
    assert "get"[..3] == "get";
    assert "size"[..2][0] == 's' && "size"[..3][0] == 's' && "size"[..3][1] == 'i';
  }

  /**
   * isCompatible(getter, setter): true if either is null; otherwise both
   * must be of their kind, name the same attribute, and the getter's return
   * type must be the setter's first parameter type. A zero-parameter
   * "set" method is a setter, so that last test can index out of bounds.
   */
  function IsCompatible(getter: Option<Method>, setter: Option<Method>): (r: Result<bool>)
    ensures getter.None? || setter.None? ==> r == Ok(true)
    ensures getter.Some? && setter.Some? ==>
      (r == Ok(true) <==>
        IsGetter(getter.value) && IsSetter(setter.value) &&
        NameOf(getter.value) == NameOf(setter.value) &&
        |setter.value.paramTypes| > 0 && getter.value.returnType == setter.value.paramTypes[0])
    ensures r.Err? ==> r.error == IndexOutOfBounds && setter.Some? && setter.value.paramTypes == []
  {
    if getter.None? || setter.None? then Ok(true)
    else
      var g, s := getter.value, setter.value;
      if !(IsGetter(g) && IsSetter(s)) || NameOf(g) != NameOf(s) then Ok(false)
      else if |s.paramTypes| == 0 then Err(IndexOutOfBounds)
      else Ok(g.returnType == s.paramTypes[0])
  }

  /** setAge(...) names the attribute "age", whatever its parameters. */
  lemma SetterNameExample(cls: ClassName, t: ClassName, params: seq<ClassName>)
    ensures GetAttributeName(Method("setAge", cls, t, params)) == Ok("age")
  {
    BeanNameRoundTrip("age", cls, t, params);
    assert "set" + Capitalize("age") == "setAge";
  }

  /** A parameterless "set" method passes isSetter and makes isCompatible fail. */
  lemma ZeroParameterSetter(cls: ClassName)
    ensures IsSetter(Method("setAge", cls, "void", []))
    ensures IsCompatible(Some(Method("getAge", cls, "int", [])), Some(Method("setAge", cls, "void", [])))
      == Err(IndexOutOfBounds)
  {
    var g, s := Method("getAge", cls, "int", []), Method("setAge", cls, "void", []);
    AttributeNameExamples(cls);
    SetterNameExample(cls, "void", []);
    assert IsGetter(g) && IsSetter(s) by {
      assert g.name[..3] == "get" && s.name[..3] == "set";
    }
    assert NameOf(g) == NameOf(s);
  }

  /** The foreign code convert relies on: toString, and the String constructor of Number subclasses. */
  datatype Host = Host(render: Value -> string, parse: (ClassName, string) -> Option<Value>)

  /**
   * isConvertable(objectClass, clazz): compatible, or clazz is String, or
   * objectClass is String and clazz is compatible with Number.
   */
  predicate IsConvertable(w: ClassWorld, objectClass: ClassName, clazz: ClassName)
    requires w.WellFormed()
  {
    ReflectionUtil.IsCompatible(w, objectClass, clazz) || clazz == StringClass ||
    (objectClass == StringClass && ReflectionUtil.IsCompatible(w, clazz, NumberClass))
  }

  /**
   * convert(object, clazz). The test is isConvertable(object, clazz), which
   * calls isConvertable(clazz, object.getClass()) -- arguments swapped. A
   * convertible value becomes its toString when clazz is String, the parse
   * of its text when it is a String and clazz is compatible with Number,
   * and null otherwise.
   */
  function Convert(w: ClassWorld, host: Host, v: Value, clazz: ClassName): (r: Result<Value>)
    requires w.WellFormed()
    ensures v == Null ==> r == Err(NullPointer)
    ensures v != Null && !IsConvertable(w, clazz, ClassOf(v)) ==> r == Err(IllegalArgument)
    ensures v.Text? ==> r.Ok? || r == Err(Conversion)
    ensures v != Null && clazz == StringClass && IsConvertable(w, clazz, ClassOf(v)) ==>
      r == Ok(Text(host.render(v)))
  {
    if v == Null then Err(NullPointer)
    else
      var objectClass := ClassOf(v);
      if !IsConvertable(w, clazz, objectClass) then Err(IllegalArgument)
      else if clazz == StringClass then Ok(Text(host.render(v)))
      else if v.Text? && ReflectionUtil.IsCompatible(w, clazz, NumberClass) then
        match host.parse(clazz, v.s)
        case Some(n) => Ok(n)
        case None => Err(Conversion)
      else Ok(Null)
  }

  /** A value of the target class itself (neither String nor Object, not an interface) is never convertible. */
  lemma SameClassNotConvertible(w: ClassWorld, host: Host, v: Value)
    requires w.WellFormed()
    requires v != Null
    requires ClassOf(v) != StringClass && ClassOf(v) != ObjectClass && ClassOf(v) !in w.interfaceTypes
    ensures Convert(w, host, v, ClassOf(v)) == Err(IllegalArgument)
  {
    ReflectionUtil.CompatibleIrreflexive(w, ClassOf(v));
  }

  /** A value of a proper subclass of a non-String class target is converted to null. */
  lemma SubclassValueBecomesNull(w: ClassWorld, host: Host, v: Value, clazz: ClassName)
    requires w.WellFormed()
    requires v != Null && ClassOf(v) != StringClass && clazz != StringClass
    requires ClassOf(v) !in w.interfaceTypes
    requires clazz in ReflectionUtil.Walk(w, ClassOf(v), true) && ClassOf(v) != ObjectClass
    ensures Convert(w, host, v, clazz) == Ok(Null)
  {
  }
}
