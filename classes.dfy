/**
 * The reflective world the accessor layer inspects: classes with their
 * superclass, the interfaces they declare and their public methods; and the
 * values and record instances the library reads and writes.
 */
module Classes {

  type ClassName = string

  const ObjectClass: ClassName := "java.lang.Object"
  const ClassClass: ClassName := "java.lang.Class"
  const StringClass: ClassName := "java.lang.String"
  const NumberClass: ClassName := "java.lang.Number"
  const CollectionClass: ClassName := "java.util.Collection"
  const SetClass: ClassName := "java.util.Set"
  const DateClass: ClassName := "java.util.Date"

  /** The classes for which Class.isPrimitive() holds (void included). */
  const Primitives: set<ClassName> :=
    {"boolean", "byte", "char", "short", "int", "long", "float", "double", "void"}

  /** The boxed and other "simple" types Accessor.isJavaType accepts. */
  const SimpleTypes: set<ClassName> :=
    {"java.lang.Boolean", "java.lang.Byte", "java.lang.Character", "java.lang.Short",
     StringClass, "java.lang.Integer", "java.lang.Long", "java.lang.Float",
     "java.lang.Double", DateClass}

  /** A reflected method: java.lang.reflect.Method reduced to what is used. */
  datatype Method = Method(name: string, declaringClass: ClassName,
                           returnType: ClassName, paramTypes: seq<ClassName>)

  /**
   * A finite class hierarchy. `superclass` is Class.getSuperclass() (absent
   * means null: Object, interfaces, primitives); `interfaces` is
   * Class.getInterfaces(); `methods` is Class.getMethods(); `rank` bounds the
   * depth of each class and makes the superclass relation acyclic.
   */
  datatype ClassWorld = ClassWorld(
    superclass: map<ClassName, ClassName>,
    interfaces: map<ClassName, seq<ClassName>>,
    interfaceTypes: set<ClassName>,
    methods: map<ClassName, seq<Method>>,
    rank: map<ClassName, nat>)
  {
    /** The superclass relation strictly decreases `rank`, so it is acyclic. */
    ghost predicate WellFormed() {
      forall c :: c in superclass ==>
        c in rank && superclass[c] in rank && rank[superclass[c]] < rank[c]
    }

    function InterfacesOf(c: ClassName): seq<ClassName> {
      if c in interfaces then interfaces[c] else []
    }

    function MethodsOf(c: ClassName): seq<Method> {
      if c in methods then methods[c] else []
    }

    function Rank(c: ClassName): nat {
      if c in rank then rank[c] else 0
    }
  }

  /** An attribute value as seen through a getter; Null is Java's null. */
  datatype Value =
    | Null
    | Num(numClass: ClassName, x: real)          // a java.lang.Number subclass
    | Text(s: string)                            // a java.lang.String
    | Ref(refClass: ClassName, id: nat)          // any other object, compared by equals
    | Coll(collClass: ClassName, items: seq<Value>)  // a java.util.Collection

  /** The runtime class of a non-null value (getClass()). */
  function ClassOf(v: Value): ClassName
    requires v != Null
  {
    match v
    case Num(c, _) => c
    case Text(_) => StringClass
    case Ref(c, _) => c
    case Coll(c, _) => c
  }

  /** A record instance (a case): its class and the value of each attribute. */
  datatype Record = Record(cls: ClassName, fields: map<string, Value>)

  /** The value of an attribute; an attribute never written reads as null. */
  function Field(r: Record, name: string): Value {
    if name in r.fields then r.fields[name] else Null
  }
}
