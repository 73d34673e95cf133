/**
 * ReflectionUtil: walks over the superclass chain and the declared
 * interfaces of a class, and the instance and compatibility tests built on
 * those walks.
 */
module ReflectionUtil {
  import opened Errors
  import opened Classes

  /**
   * The classes getAllSuperclasses' loop appends when it starts at `c`: the
   * superclass of the current class, until the current class is Object, has
   * no superclass, or (when a limit class was passed, `limited`) is
   * java.lang.Class -- the source compares with limitClazz.getClass(),
   * which is java.lang.Class whatever the limit is.
   */
  function Walk(w: ClassWorld, c: ClassName, limited: bool): seq<ClassName>
    requires w.WellFormed()
    decreases w.Rank(c)
  {
    if c == ObjectClass || (limited && c == ClassClass) || c !in w.superclass then []
    else [w.superclass[c]] + Walk(w, w.superclass[c], limited)
  }

  /** getAllSuperclasses(clazz, limitClazz): null gives [], Object gives [Object]. */
  function GetAllSuperclasses(w: ClassWorld, clazz: Option<ClassName>, limit: Option<ClassName>): seq<ClassName>
    requires w.WellFormed()
  {
    match clazz
    case None => []
    case Some(c) => if c == ObjectClass then [ObjectClass] else Walk(w, c, limit.Some?)
  }

  /** The while loop of getAllSuperclasses, appending to a list. */
  method AllSuperclasses(w: ClassWorld, clazz: Option<ClassName>, limit: Option<ClassName>)
    returns (supers: seq<ClassName>)
    requires w.WellFormed()
    ensures supers == GetAllSuperclasses(w, clazz, limit)
  {
    supers := [];
    if clazz.Some? && clazz.value != ObjectClass {
      var ultima: Option<ClassName> := clazz;
      while ultima.Some? && ultima.value != ObjectClass && (limit.None? || ultima.value != ClassClass)
        invariant ultima.Some? ==> supers + Walk(w, ultima.value, limit.Some?) == Walk(w, clazz.value, limit.Some?)
        invariant ultima.None? ==> supers == Walk(w, clazz.value, limit.Some?)
        decreases if ultima.Some? then w.Rank(ultima.value) + 1 else 0
      {
        var cur := ultima.value;
        ultima := if cur in w.superclass then Some(w.superclass[cur]) else None;
        if ultima.Some? {
          supers := supers + [ultima.value];
        }
      }
    } else if clazz.Some? {
      supers := [ObjectClass];
    }
  }

  /** Each element of the walk is the superclass of the one before it. */
  lemma {:induction false} WalkLinks(w: ClassWorld, c: ClassName, limited: bool, k: nat)
    requires w.WellFormed()
    requires k < |Walk(w, c, limited)|
    ensures var s := Walk(w, c, limited);
      if k == 0 then c in w.superclass && s[0] == w.superclass[c]
      else s[k - 1] in w.superclass && s[k] == w.superclass[s[k - 1]]
    decreases w.Rank(c)
  {
    var p := w.superclass[c];
    if k > 1 {
      WalkLinks(w, p, limited, k - 1);
    } else if k == 1 {
      WalkLinks(w, p, limited, 0);
    }
  }

  /** The walk ends at Object, at a class without superclass, or (limited) at java.lang.Class. */
  lemma {:induction false} WalkEnds(w: ClassWorld, c: ClassName, limited: bool)
    requires w.WellFormed()
    requires Walk(w, c, limited) != []
    ensures var s := Walk(w, c, limited); var last := s[|s| - 1];
      last == ObjectClass || last !in w.superclass || (limited && last == ClassClass)
    decreases w.Rank(c)
  {
    var p := w.superclass[c];
    if Walk(w, p, limited) != [] {
      WalkEnds(w, p, limited);
    }
  }

  /** Every class on the walk is strictly higher in the hierarchy than `c`. */
  lemma {:induction false} WalkRanks(w: ClassWorld, c: ClassName, limited: bool)
    requires w.WellFormed()
    ensures forall d :: d in Walk(w, c, limited) ==> w.Rank(d) < w.Rank(c)
    decreases w.Rank(c)
  {
    if !(c == ObjectClass || (limited && c == ClassClass) || c !in w.superclass) {
      WalkRanks(w, w.superclass[c], limited);
    }
  }

  /** A class never occurs on its own superclass walk. */
  lemma NotOnOwnWalk(w: ClassWorld, c: ClassName, limited: bool)
    requires w.WellFormed()
    ensures c !in Walk(w, c, limited)
  {
    WalkRanks(w, c, limited);
  }

  /** The walk of a class on the walk of `c` lies inside the walk of `c`. */
  lemma {:induction false} WalkClosed(w: ClassWorld, c: ClassName, d: ClassName, e: ClassName, limited: bool)
    requires w.WellFormed()
    requires d in Walk(w, c, limited) && e in Walk(w, d, limited)
    ensures e in Walk(w, c, limited)
    decreases w.Rank(c)
  {
    var p := w.superclass[c];
    if d != p {
      WalkClosed(w, p, d, e, limited);
    }
  }

  /** isInstance(obj, clazz): obj's class is clazz or clazz is on its superclass list. */
  predicate IsInstanceOfClass(w: ClassWorld, objClass: ClassName, clazz: ClassName)
    requires w.WellFormed()
  {
    objClass == clazz || clazz in GetAllSuperclasses(w, Some(objClass), Some(clazz))
  }

  predicate IsInstance(w: ClassWorld, obj: Record, clazz: ClassName)
    requires w.WellFormed()
  {
    IsInstanceOfClass(w, obj.cls, clazz)
  }

  /** Being an instance is transitive along the hierarchy. */
  lemma InstanceTransitive(w: ClassWorld, a: ClassName, b: ClassName, c: ClassName)
    requires w.WellFormed()
    requires IsInstanceOfClass(w, a, b) && IsInstanceOfClass(w, b, c)
    ensures IsInstanceOfClass(w, a, c)
  {
    if a != b && b != c && a != ObjectClass && b != ObjectClass {
      WalkClosed(w, a, b, c, true);
    }
  }

  /** The declared interfaces of one class, each followed by getAllSuperclasses of it. */
  function Declared(w: ClassWorld, ifaces: seq<ClassName>): seq<ClassName>
    requires w.WellFormed()
  {
    if ifaces == [] then []
    else
      var last := ifaces[|ifaces| - 1];
      Declared(w, ifaces[..|ifaces| - 1]) + [last] + GetAllSuperclasses(w, Some(last), Some(ObjectClass))
  }

  /** getAllInterfaces from a non-null class: declared interfaces of it and of each superclass below Object. */
  function AllInterfaces(w: ClassWorld, c: ClassName): seq<ClassName>
    requires w.WellFormed()
    decreases w.Rank(c)
  {
    if c == ObjectClass then []
    else Declared(w, w.InterfacesOf(c)) + (if c in w.superclass then AllInterfaces(w, w.superclass[c]) else [])
  }

  function GetAllInterfaces(w: ClassWorld, clazz: Option<ClassName>): seq<ClassName>
    requires w.WellFormed()
  {
    match clazz
    case None => []
    case Some(c) => AllInterfaces(w, c)
  }

  /** The inner for loop of getAllInterfaces over one class's declared interfaces. */
  method DeclaredLoop(w: ClassWorld, ifs: seq<ClassName>) returns (interfaces: seq<ClassName>)
    requires w.WellFormed()
    ensures interfaces == Declared(w, ifs)
  {
    interfaces := [];
    var i := 0;
    while i < |ifs|
      invariant 0 <= i <= |ifs|
      invariant interfaces == Declared(w, ifs[..i])
    {
      var iface := ifs[i];
      var supers := AllSuperclasses(w, Some(iface), Some(ObjectClass));
      assert ifs[..i + 1][..i] == ifs[..i];
      interfaces := interfaces + [iface] + supers;
      i := i + 1;
    }
    assert ifs[..i] == ifs;
  }

  /** The outer while loop of getAllInterfaces, climbing the superclasses. */
  method AllInterfacesLoop(w: ClassWorld, clazz: Option<ClassName>) returns (interfaces: seq<ClassName>)
    requires w.WellFormed()
    ensures interfaces == GetAllInterfaces(w, clazz)
  {
    interfaces := [];
    var cur := clazz;
    while cur.Some? && cur.value != ObjectClass
      invariant interfaces + GetAllInterfaces(w, cur) == GetAllInterfaces(w, clazz)
      decreases if cur.Some? then w.Rank(cur.value) + 1 else 0
    {
      var c := cur.value;
      var declared := DeclaredLoop(w, w.InterfacesOf(c));
      var next := if c in w.superclass then Some(w.superclass[c]) else None;
      AppendAssoc(interfaces, declared, GetAllInterfaces(w, next));
      interfaces := interfaces + declared;
      cur := next;
    }
    assert interfaces + [] == interfaces;
  }

  lemma AppendAssoc(a: seq<ClassName>, b: seq<ClassName>, c: seq<ClassName>)
    ensures (a + b) + c == a + (b + c)
  {
  }

  /** isImplementedByAny(iface, clazz): a null class fails, because the guard is `clazz != null || !clazz.isPrimitive()`. */
  function IsImplementedByAny(w: ClassWorld, iface: ClassName, clazz: Option<ClassName>): (r: Result<bool>)
    requires w.WellFormed()
    ensures clazz.None? <==> r == Err(NullPointer)
    ensures clazz.Some? ==> (r == Ok(true) <==> iface in AllInterfaces(w, clazz.value))
  {
    match clazz
    case None => Err(NullPointer)
    case Some(c) => Ok(iface in AllInterfaces(w, c))
  }

  /** An interface declared on a class, or on a superclass below Object, counts as implemented. */
  lemma {:induction false} ImplementedByInheritance(w: ClassWorld, c: ClassName, iface: ClassName)
    requires w.WellFormed()
    requires c != ObjectClass
    requires iface in w.InterfacesOf(c) || (c in w.superclass && iface in AllInterfaces(w, w.superclass[c]))
    ensures IsImplementedByAny(w, iface, Some(c)) == Ok(true)
  {
    if iface in w.InterfacesOf(c) {
      DeclaredContains(w, w.InterfacesOf(c), iface);
    }
  }

  lemma {:induction false} DeclaredContains(w: ClassWorld, ifaces: seq<ClassName>, iface: ClassName)
    requires w.WellFormed()
    requires iface in ifaces
    ensures iface in Declared(w, ifaces)
  {
    var last := ifaces[|ifaces| - 1];
    if iface != last {
      assert ifaces == ifaces[..|ifaces| - 1] + [last];
      DeclaredContains(w, ifaces[..|ifaces| - 1], iface);
    }
  }

  /** isImplementedByAny(Class[], clazz): every listed interface is implemented; true for none. */
  method IsImplementedByAll(w: ClassWorld, ifaces: seq<ClassName>, clazz: Option<ClassName>) returns (r: Result<bool>)
    requires w.WellFormed()
    ensures clazz.None? ==> r == (if |ifaces| == 0 then Ok(true) else Err(NullPointer))
    ensures clazz.Some? ==>
      r == Ok(forall i :: 0 <= i < |ifaces| ==> ifaces[i] in AllInterfaces(w, clazz.value))
  {
    for i := 0 to |ifaces|
      invariant clazz.None? ==> i == 0
      invariant clazz.Some? ==> forall j :: 0 <= j < i ==> ifaces[j] in AllInterfaces(w, clazz.value)
    {
      var one := IsImplementedByAny(w, ifaces[i], clazz);
      if one.Err? {
        return one;
      }
      if !one.value {
        return Ok(false);
      }
    }
    return Ok(true);
  }

  /** isCompatible(objectClass, clazz): for an interface, it is implemented by objectClass; otherwise objectClass is on clazz's superclass list. */
  predicate IsCompatible(w: ClassWorld, objectClass: ClassName, clazz: ClassName)
    requires w.WellFormed()
  {
    if clazz in w.interfaceTypes then clazz in AllInterfaces(w, objectClass)
    else objectClass in GetAllSuperclasses(w, Some(clazz), Some(objectClass))
  }

  /** For a class target isCompatible is not reflexive: only Object is compatible with itself. */
  lemma CompatibleIrreflexive(w: ClassWorld, c: ClassName)
    requires w.WellFormed()
    requires c !in w.interfaceTypes
    ensures IsCompatible(w, c, c) <==> c == ObjectClass
  {
    NotOnOwnWalk(w, c, true);
  }

  /** For a class target, compatibility means objectClass is a proper ancestor of clazz (the direction is reversed). */
  lemma CompatibleMeansAncestor(w: ClassWorld, objectClass: ClassName, clazz: ClassName)
    requires w.WellFormed()
    requires clazz !in w.interfaceTypes && clazz != ObjectClass
    ensures IsCompatible(w, objectClass, clazz) ==>
      objectClass != clazz && IsInstanceOfClass(w, clazz, objectClass)
  {
    NotOnOwnWalk(w, clazz, true);
  }
}
