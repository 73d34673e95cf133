/**
 * AccessorUtil's registry: discovery of one Accessor per attribute of a
 * class, the per-class cache, lookups by name, the attribute-name listing
 * and the three copy modes.
 */
module AccessorUtil {
  import opened Errors
  import opened Classes
  import opened Text
  import ReflectionUtil
  import opened AccessorNaming
  import opened Accessors

  /** Accessor states keyed by attribute name, the specification of one per-class map. */
  type StateMap = map<string, AccessorState>

  /** Every state is valid and named by its key. */
  ghost predicate GoodStates(w: ClassWorld, m: StateMap)
    requires w.WellFormed()
  {
    forall n :: n in m ==> m[n].Valid() && m[n].Name() == Some(n)
  }

  /** The accessors a lone method `m` starts: a getter goes in the getter slot, anything else in the setter slot. */
  function StartWith(w: ClassWorld, clazz: ClassName, obj: Option<Record>, m: Method): (Outcome, AccessorState)
    requires w.WellFormed()
  {
    if IsGetter(m) then ConstructStep(w, obj, Some(clazz), Some(m), None)
    else ConstructStep(w, obj, Some(clazz), None, Some(m))
  }

  /** A step outcome applied to entry `name` of the map. */
  function Lift(step: (Outcome, AccessorState), acc: StateMap, name: string): Result<StateMap> {
    if step.0.Fail? then Err(step.0.error) else Ok(acc[name := step.1])
  }

  /** A step outcome as a result: the new state, or the exception thrown. */
  function Apply(step: (Outcome, AccessorState)): Result<AccessorState> {
    if step.0.Fail? then Err(step.0.error) else Ok(step.1)
  }

  /**
   * A method for an attribute already held: a getter compatible with the
   * held setter replaces the getter, and otherwise a method compatible with
   * the held getter is handed to setSetter; else nothing changes.
   */
  function MergeStep(s: AccessorState, m: Method): Result<AccessorState> {
    var useGetter :- if IsGetter(m) then IsCompatible(Some(m), s.setter) else Ok(false);
    if useGetter then Apply(SetGetterStep(s, Some(m)))
    else
      var useSetter :- IsCompatible(s.getter, Some(m));
      if useSetter then Apply(SetSetterStep(s, Some(m))) else Ok(s)
  }

  /** One iteration of the discovery loop of getAccessorsMap: a non-accessor is skipped, a new name starts an accessor, a known one is merged. */
  function DiscoverStep(w: ClassWorld, clazz: ClassName, obj: Option<Record>, acc: StateMap, m: Method)
    : Result<StateMap>
    requires w.WellFormed()
  {
    if !IsAccessor(m) then Ok(acc)
    else
      var name := NameOf(m);
      if name !in acc then Lift(StartWith(w, clazz, obj, m), acc, name)
      else
        var t :- MergeStep(acc[name], m);
        Ok(acc[name := t])
  }

  /** The discovery loop over the first methods, in order; the first exception aborts it. */
  function Discover(w: ClassWorld, clazz: ClassName, obj: Option<Record>, ms: seq<Method>): Result<StateMap>
    requires w.WellFormed()
  {
    if ms == [] then Ok(map[])
    else
      var acc :- Discover(w, clazz, obj, ms[..|ms| - 1]);
      DiscoverStep(w, clazz, obj, acc, ms[|ms| - 1])
  }

  /** A started accessor is valid and named after its method. */
  lemma StartWithGood(w: ClassWorld, clazz: ClassName, obj: Option<Record>, m: Method)
    requires w.WellFormed() && IsAccessor(m)
    ensures var (out, s) := StartWith(w, clazz, obj, m);
      s.Valid() && (out == Pass ==> s.Name() == Some(NameOf(m)))
  {
    if IsGetter(m) {
      ConstructedIsValid(w, obj, Some(clazz), Some(m), None);
    } else {
      ConstructedIsValid(w, obj, Some(clazz), None, Some(m));
    }
  }

  /** Each discovery step keeps every accessor valid and named by its key. */
  lemma DiscoverStepGood(w: ClassWorld, clazz: ClassName, obj: Option<Record>, acc: StateMap, m: Method)
    requires w.WellFormed() && GoodStates(w, acc)
    ensures DiscoverStep(w, clazz, obj, acc, m).Ok? ==> GoodStates(w, DiscoverStep(w, clazz, obj, acc, m).value)
  {
    if IsAccessor(m) {
      var name := NameOf(m);
      if name !in acc {
        StartWithGood(w, clazz, obj, m);
        var step := StartWith(w, clazz, obj, m);
        if step.0 == Pass {
          PutGood(w, acc, name, step.1);
        }
      } else {
        MergeStepGood(acc[name], m);
        if MergeStep(acc[name], m).Ok? {
          PutGood(w, acc, name, MergeStep(acc[name], m).value);
        }
      }
    }
  }

  /** Merging a method of the same attribute keeps the accessor valid and its name unchanged. */
  lemma MergeStepGood(s: AccessorState, m: Method)
    requires s.Valid() && IsAccessor(m) && s.Name() == Some(NameOf(m))
    ensures MergeStep(s, m).Ok? ==> MergeStep(s, m).value.Valid() && MergeStep(s, m).value.Name() == s.Name()
  {
    MethodStepsKeepValid(s, Some(m));
  }

  /** Storing a valid state under its own name keeps the map good. */
  lemma PutGood(w: ClassWorld, acc: StateMap, name: string, t: AccessorState)
    requires w.WellFormed() && GoodStates(w, acc) && t.Valid() && t.Name() == Some(name)
    ensures GoodStates(w, acc[name := t])
  {
  }

  /** A discovery step adds at most the method's own attribute name. */
  lemma DiscoverStepKeys(w: ClassWorld, clazz: ClassName, obj: Option<Record>, acc: StateMap, m: Method)
    requires w.WellFormed()
    ensures var r := DiscoverStep(w, clazz, obj, acc, m);
      r.Ok? ==> r.value.Keys <= acc.Keys + (if IsAccessor(m) then {NameOf(m)} else {})
  {
  }

  /** Once a step has thrown, the rest of the loop does not run: the whole call throws that exception. */
  lemma {:induction false} DiscoverAborts(w: ClassWorld, clazz: ClassName, obj: Option<Record>, ms: seq<Method>, j: nat)
    requires w.WellFormed() && j <= |ms|
    requires Discover(w, clazz, obj, ms[..j]).Err?
    ensures Discover(w, clazz, obj, ms) == Discover(w, clazz, obj, ms[..j])
    decreases |ms| - j
  {
    if j < |ms| {
      assert ms[..j + 1][..j] == ms[..j];
      DiscoverAborts(w, clazz, obj, ms, j + 1);
    } else {
      assert ms[..j] == ms;
    }
  }

  /** One more method of the loop: discovery over the longer prefix is the next step, and a throwing step ends the whole loop. */
  lemma DiscoverNext(w: ClassWorld, clazz: ClassName, obj: Option<Record>, ms: seq<Method>, i: nat, acc: StateMap)
    requires w.WellFormed() && i < |ms| && Discover(w, clazz, obj, ms[..i]) == Ok(acc)
    ensures Discover(w, clazz, obj, ms[..i + 1]) == DiscoverStep(w, clazz, obj, acc, ms[i])
    ensures DiscoverStep(w, clazz, obj, acc, ms[i]).Err? ==> Discover(w, clazz, obj, ms) == DiscoverStep(w, clazz, obj, acc, ms[i])
  {
    assert ms[..i + 1][..i] == ms[..i] && ms[..i + 1][i] == ms[i];
    if DiscoverStep(w, clazz, obj, acc, ms[i]).Err? {
      DiscoverAborts(w, clazz, obj, ms, i + 1);
    }
  }

  /** Discovery yields only valid accessors, each under its own attribute name. */
  lemma {:induction false} DiscoverGood(w: ClassWorld, clazz: ClassName, obj: Option<Record>, ms: seq<Method>)
    requires w.WellFormed()
    ensures Discover(w, clazz, obj, ms).Ok? ==> GoodStates(w, Discover(w, clazz, obj, ms).value)
  {
    if ms != [] {
      DiscoverGood(w, clazz, obj, ms[..|ms| - 1]);
      var prev := Discover(w, clazz, obj, ms[..|ms| - 1]);
      if prev.Ok? {
        DiscoverStepGood(w, clazz, obj, prev.value, ms[|ms| - 1]);
      }
    }
  }

  /** Every key of the discovered map is the attribute name of one of the accessor methods. */
  lemma {:induction false} DiscoverKeys(w: ClassWorld, clazz: ClassName, obj: Option<Record>, ms: seq<Method>)
    requires w.WellFormed()
    ensures Discover(w, clazz, obj, ms).Ok? ==>
      forall n :: n in Discover(w, clazz, obj, ms).value ==>
        exists i :: 0 <= i < |ms| && IsAccessor(ms[i]) && NameOf(ms[i]) == n
  {
    if ms != [] {
      var init := ms[..|ms| - 1];
      DiscoverKeys(w, clazz, obj, init);
      var prev := Discover(w, clazz, obj, init);
      if prev.Ok? {
        var last := ms[|ms| - 1];
        DiscoverStepKeys(w, clazz, obj, prev.value, last);
        var r := DiscoverStep(w, clazz, obj, prev.value, last);
        if r.Ok? {
          forall n | n in r.value
            ensures exists i :: 0 <= i < |ms| && IsAccessor(ms[i]) && NameOf(ms[i]) == n
          {
            if n in prev.value {
              var i :| 0 <= i < |init| && IsAccessor(init[i]) && NameOf(init[i]) == n;
              assert ms[i] == init[i];
            } else {
              assert IsAccessor(last) && NameOf(last) == n;
            }
          }
        }
      }
    }
  }

  /** A cached accessor is valid and named by its key. */
  ghost predicate GoodEntry(w: ClassWorld, a: Accessor, n: string)
    requires w.WellFormed()
    reads a
  {
    a.State().Valid() && a.State().Name() == Some(n)
  }

  /** acs holds, in order, the lookups in m of the first |acs| wanted names. */
  ghost predicate LookedUp(acs: seq<Option<Accessor>>, m: map<string, Accessor>, wanted: seq<string>)
  {
    |acs| <= |wanted| && forall k :: 0 <= k < |acs| ==> acs[k] == Lookup(m, wanted[k])
  }

  /** Appending the lookup of the next wanted name. */
  lemma LookedUpSnoc(acs: seq<Option<Accessor>>, m: map<string, Accessor>, wanted: seq<string>, ac: Option<Accessor>)
    requires LookedUp(acs, m, wanted) && |acs| < |wanted| && ac == Lookup(m, wanted[|acs|])
    ensures LookedUp(acs + [ac], m, wanted)
  {
  }

  /** Map.get: the accessor stored under name, or null. */
  function Lookup(m: map<string, Accessor>, name: string): (r: Option<Accessor>)
    ensures r.Some? <==> name in m
    ensures r.Some? ==> r.value == m[name]
  {
    if name in m then Some(m[name]) else None
  }

  /** The accessors of a map, as their states. */
  function States(m: map<string, Accessor>): StateMap
    reads set n | n in m :: m[n]
  {
    map n | n in m :: m[n].State()
  }

  /** Distinct names hold distinct Accessor objects. */
  ghost predicate Injective(m: map<string, Accessor>) {
    forall a, b :: a in m && b in m && a != b ==> m[a] != m[b]
  }

  /** One iteration of the discovery loop on Accessor objects: DiscoverStep, performed in place. */
  method DiscoverOne(w: ClassWorld, clazz: ClassName, obj: Option<Record>, result: map<string, Accessor>,
                     ghost acc: StateMap, m: Method)
    returns (r: Result<map<string, Accessor>>)
    requires w.WellFormed() && Injective(result) && Mirrors(result, acc)
    modifies set n | n in result :: result[n]
    ensures r.Err? ==> DiscoverStep(w, clazz, obj, acc, m) == Err(r.error)
    ensures r.Ok? ==> DiscoverStep(w, clazz, obj, acc, m).Ok? && Mirrors(r.value, DiscoverStep(w, clazz, obj, acc, m).value)
    ensures r.Ok? ==> Injective(r.value)
    ensures r.Ok? ==> forall n :: n in r.value ==> (n in result && r.value[n] == result[n]) || fresh(r.value[n])
  {
    if !IsAccessor(m) {
      return Ok(result);
    }
    var name := NameOf(m);
    if name !in result {
      var made;
      if IsGetter(m) {
        made := NewAccessor(w, obj, Some(clazz), Some(m), None);
      } else {
        made := NewAccessor(w, obj, Some(clazz), None, Some(m));
      }
      if made.Err? {
        return Err(made.error);
      }
      return Ok(result[name := made.value]);
    }
    var a := result[name];
    assert forall n :: n in result && n != name ==> result[n] != a;
    var out := Merge(a, m);
    if out.Fail? {
      return Err(out.error);
    }
    return Ok(result);
  }

  /** The known-name branch of the discovery loop on the held accessor a. */
  method Merge(a: Accessor, m: Method) returns (r: Outcome)
    modifies a
    ensures MergeStep(old(a.State()), m).Err? ==> r == Fail(MergeStep(old(a.State()), m).error)
    ensures MergeStep(old(a.State()), m).Ok? ==> r == Pass && a.State() == MergeStep(old(a.State()), m).value
  {
    var useGetter := false;
    if IsGetter(m) {
      var c := IsCompatible(Some(m), a.setter);
      if c.Err? {
        return Fail(c.error);
      }
      useGetter := c.value;
    }
    if useGetter {
      r := a.SetGetter(Some(m));
    } else {
      var c := IsCompatible(a.getter, Some(m));
      if c.Err? {
        return Fail(c.error);
      }
      r := Pass;
      if c.value {
        r := a.SetSetter(Some(m));
      }
    }
  }

  /** The accessors of m are exactly those Discover specifies for clazz: the same names, each in the specified state. */
  ghost predicate Discovered(w: ClassWorld, clazz: ClassName, obj: Option<Record>, m: map<string, Accessor>)
    requires w.WellFormed()
    reads set n | n in m :: m[n]
  {
    var spec := Discover(w, clazz, obj, w.MethodsOf(clazz));
    spec.Ok? && Mirrors(m, spec.value)
  }

  /** The accessors of m hold exactly the states of acc, name by name. */
  ghost predicate Mirrors(m: map<string, Accessor>, acc: StateMap)
    reads set n | n in m :: m[n]
  {
    m.Keys == acc.Keys && forall n :: n in m ==> m[n].State() == acc[n]
  }

  /** Accessors mirroring good states are good entries. */
  lemma MirrorsGood(w: ClassWorld, m: map<string, Accessor>, acc: StateMap)
    requires w.WellFormed() && Mirrors(m, acc) && GoodStates(w, acc)
    ensures forall n :: n in m ==> GoodEntry(w, m[n], n)
  {
  }

  /**
   * The cache-miss branch of getAccessorsMap: one Accessor per attribute
   * name, built by Discover's steps on fresh objects.
   */
  method BuildAccessors(w: ClassWorld, clazz: ClassName, obj: Option<Record>) returns (r: Result<map<string, Accessor>>)
    requires w.WellFormed()
    ensures r.Err? ==> Discover(w, clazz, obj, w.MethodsOf(clazz)) == Err(r.error)
    ensures r.Ok? ==> Discovered(w, clazz, obj, r.value)
    ensures r.Ok? ==> Injective(r.value) && (forall n :: n in r.value ==> fresh(r.value[n]))
    ensures r.Ok? ==> forall n :: n in r.value ==> GoodEntry(w, r.value[n], n)
  {
    var ms := w.MethodsOf(clazz);
    var result: map<string, Accessor> := map[];
    ghost var acc: StateMap := map[];
    var i := 0;
    while i < |ms|
      invariant 0 <= i <= |ms|
      invariant Discover(w, clazz, obj, ms[..i]) == Ok(acc)
      invariant Mirrors(result, acc) && Injective(result)
      invariant forall n :: n in result ==> fresh(result[n])
    {
      DiscoverNext(w, clazz, obj, ms, i, acc);
      var next := DiscoverOne(w, clazz, obj, result, acc, ms[i]);
      if next.Err? {
        return Err(next.error);
      }
      result := next.value;
      acc := DiscoverStep(w, clazz, obj, acc, ms[i]).value;
      i := i + 1;
    }
    assert ms[..i] == ms;
    DiscoverGood(w, clazz, obj, ms);
    MirrorsGood(w, result, acc);
    return Ok(result);
  }

  /** On a cache hit with updateOwner, each accessor gets setOwner(obj) unless obj is non-null and already its owner. */
  function UpdateOwner(w: ClassWorld, s: AccessorState, obj: Option<Record>): (Outcome, AccessorState)
    requires w.WellFormed()
  {
    if obj.None? || s.owner != obj then SetOwnerStep(w, s, obj) else (Pass, s)
  }

  /** The owner update keeps an accessor valid, bound and named as before, and on success its owner is obj. */
  lemma UpdateOwnerGood(w: ClassWorld, s: AccessorState, obj: Option<Record>)
    requires w.WellFormed() && s.Valid() && s.Bound(w)
    ensures var (out, t) := UpdateOwner(w, s, obj);
      t.Valid() && t.Bound(w) && t.Name() == s.Name() && t.getter == s.getter && t.setter == s.setter &&
      (out == Pass ==> t.owner == obj)
  {
    OwnerStepsKeepInvariants(w, s, obj, None);
  }

  /** Called with just a class (obj null), the update cannot fail and unbinds every accessor. */
  lemma UpdateToNullUnbinds(w: ClassWorld, s: AccessorState)
    requires w.WellFormed()
    ensures UpdateOwner(w, s, None) == (Pass, s.(owner := None))
  {
  }

  /** A refused owner update is always an IncompatibleClassException. */
  lemma OwnerUpdateRefusal(w: ClassWorld, s: AccessorState, obj: Option<Record>)
    requires w.WellFormed()
    ensures UpdateOwner(w, s, obj).0.Fail? ==> UpdateOwner(w, s, obj).0 == Fail(IncompatibleClass)
  {
  }

  /** An accessor built for a class with no owner object has no owner. */
  lemma {:induction false} DiscoverUnbound(w: ClassWorld, clazz: ClassName, ms: seq<Method>)
    requires w.WellFormed()
    ensures Discover(w, clazz, None, ms).Ok? ==>
      forall n :: n in Discover(w, clazz, None, ms).value ==> Discover(w, clazz, None, ms).value[n].owner.None?
  {
    if ms != [] {
      DiscoverUnbound(w, clazz, ms[..|ms| - 1]);
    }
  }

  /** The copy modes. */
  const CopyExcept := 1
  const CopyOnly := 2
  const CopySimpleAndCustom := 3

  /**
   * Whether copy(mode, attributes, ...) transfers the attribute of `s`: a
   * null set selects everything; otherwise COPY_ONLY selects the named,
   * COPY_EXCEPT the unnamed, and COPY_SIMPLE_AND_CUSTOM the Java-typed and
   * the named attributes. isJavaType is evaluated, and can throw, in every
   * mode once the first test fails.
   */
  function Selected(mode: int, attrs: Option<set<string>>, s: AccessorState): Result<bool>
    requires s.Valid()
  {
    if attrs.None? then Ok(true)
    else
      var named := s.Name().Some? && s.Name().value in attrs.value;
      if (named && mode == CopyOnly) || (!named && mode == CopyExcept) then Ok(true)
      else
        var javaType :- s.IsJavaType();
        Ok((javaType && mode == CopySimpleAndCustom) || (named && mode == CopySimpleAndCustom))
  }

  /**
   * The transfer of one selected attribute: when dest has an accessor of
   * that name that is writeable, the source accessor is readable and the
   * two types are equal, the value read from orign is set on dest; the
   * result is the value stored, or None when nothing is written.
   */
  function Transfer(w: ClassWorld, host: Host, src: AccessorState, dests: StateMap, orign: Record, dest: Record)
    : Result<Option<Value>>
    requires w.WellFormed() && src.Valid() && GoodStates(w, dests)
  {
    var name := src.Name();
    if name.None? || name.value !in dests then Ok(None)
    else
      var d := dests[name.value];
      if !d.IsWriteable() || !src.IsReadable() then Ok(None)
      else
        var dt :- d.Type();
        if dt != src.getter.value.returnType then Ok(None)
        else
          var v :- InvokeGetter(w, src, orign);
          var written :- InvokeSetter(w, host, d, dest, v);
          Ok(Some(SetterArgument(w, host, d, v).value))
  }

  /** One iteration of copy's loop: selection, then transfer. */
  function CopyStep(w: ClassWorld, host: Host, mode: int, attrs: Option<set<string>>,
                    src: AccessorState, dests: StateMap, orign: Record, dest: Record): Result<Option<Value>>
    requires w.WellFormed() && src.Valid() && GoodStates(w, dests)
  {
    var selected :- Selected(mode, attrs, src);
    if selected then Transfer(w, host, src, dests, orign, dest) else Ok(None)
  }

  /** The field of the copy's destination: the transferred value where one was written, the old value elsewhere. */
  function CopiedField(w: ClassWorld, host: Host, mode: int, attrs: Option<set<string>>,
                       srcs: StateMap, dests: StateMap, orign: Record, dest: Record, f: string): Value
    requires w.WellFormed() && GoodStates(w, srcs) && GoodStates(w, dests)
  {
    if f in srcs && CopyStep(w, host, mode, attrs, srcs[f], dests, orign, dest).Ok?
                 && CopyStep(w, host, mode, attrs, srcs[f], dests, orign, dest).value.Some?
    then CopyStep(w, host, mode, attrs, srcs[f], dests, orign, dest).value.value
    else Field(dest, f)
  }

  /** The three modes select as documented, and a null set selects every attribute. */
  lemma SelectionByMode(mode: int, attrs: Option<set<string>>, s: AccessorState)
    requires s.Valid() && s.Name().Some? && s.IsJavaType().Ok?
    ensures attrs.None? ==> Selected(mode, attrs, s) == Ok(true)
    ensures attrs.Some? && mode == CopyOnly ==> (Selected(mode, attrs, s) == Ok(true) <==> s.Name().value in attrs.value)
    ensures attrs.Some? && mode == CopyExcept ==> (Selected(mode, attrs, s) == Ok(true) <==> s.Name().value !in attrs.value)
    ensures attrs.Some? && mode == CopySimpleAndCustom ==>
      (Selected(mode, attrs, s) == Ok(true) <==> s.IsJavaType().value || s.Name().value in attrs.value)
    ensures attrs.Some? && mode !in {CopyOnly, CopyExcept, CopySimpleAndCustom} ==> Selected(mode, attrs, s) == Ok(false)
  {
  }

  /** An attribute is written only if dest has a writeable accessor of that name, the source one is readable and the types agree. */
  lemma WrittenOnlyWhenMatching(w: ClassWorld, host: Host, mode: int, attrs: Option<set<string>>,
                                src: AccessorState, dests: StateMap, orign: Record, dest: Record)
    requires w.WellFormed() && src.Valid() && GoodStates(w, dests)
    requires CopyStep(w, host, mode, attrs, src, dests, orign, dest).Ok?
    requires CopyStep(w, host, mode, attrs, src, dests, orign, dest).value.Some?
    ensures src.Name().Some? && src.Name().value in dests
    ensures dests[src.Name().value].IsWriteable() && src.IsReadable()
    ensures dests[src.Name().value].Type() == src.Type()
    ensures Selected(mode, attrs, src) == Ok(true)
  {
  }

  /** COPY_ONLY with an empty set writes nothing. */
  lemma CopyOnlyEmptyWritesNothing(w: ClassWorld, host: Host, srcs: StateMap, dests: StateMap, orign: Record, dest: Record, f: string)
    requires w.WellFormed() && GoodStates(w, srcs) && GoodStates(w, dests)
    requires forall n :: n in srcs ==> srcs[n].IsJavaType().Ok?
    ensures CopiedField(w, host, CopyOnly, Some({}), srcs, dests, orign, dest, f) == Field(dest, f)
  {
    if f in srcs {
      SelectionByMode(CopyOnly, Some({}), srcs[f]);
    }
  }

  /** copy(orign, dest), i.e. COPY_EXCEPT with no names, selects every attribute, like a null set. */
  lemma CopyExceptNothingIsCopyAll(w: ClassWorld, host: Host, srcs: StateMap, dests: StateMap, orign: Record, dest: Record, f: string)
    requires w.WellFormed() && GoodStates(w, srcs) && GoodStates(w, dests)
    ensures CopiedField(w, host, CopyExcept, Some({}), srcs, dests, orign, dest, f) ==
            CopiedField(w, host, CopyExcept, None, srcs, dests, orign, dest, f)
  {
    if f in srcs {
      assert srcs[f].Name() == Some(f);
    }
  }

  /** The destination's class alone decides a copy step: the values its fields hold so far play no part. */
  lemma CopyStepClassOnly(w: ClassWorld, host: Host, mode: int, attrs: Option<set<string>>,
                          src: AccessorState, dests: StateMap, orign: Record, a: Record, b: Record)
    requires w.WellFormed() && src.Valid() && GoodStates(w, dests) && a.cls == b.cls
    ensures CopyStep(w, host, mode, attrs, src, dests, orign, a) == CopyStep(w, host, mode, attrs, src, dests, orign, b)
  {
  }

  /**
   * One iteration of copy's loop, on the source accessor in state s and the
   * destination as copied so far: select, look up the destination accessor
   * of the same name, test it, read from orign and write into cur.
   */
  method CopyOne(w: ClassWorld, host: Host, mode: int, attrs: Option<set<string>>,
                 s: AccessorState, dests: StateMap, orign: Record, cur: Record)
    returns (r: Result<Record>)
    requires w.WellFormed() && s.Valid() && s.Name().Some? && GoodStates(w, dests)
    ensures var step := CopyStep(w, host, mode, attrs, s, dests, orign, cur);
      && (r.Err? <==> step.Err?) && (r.Err? ==> r.error == step.error)
      && (r.Ok? && step.value.None? ==> r.value == cur)
      && (r.Ok? && step.value.Some? ==> r.value == Record(cur.cls, cur.fields[s.Name().value := step.value.value]))
  {
    var selected := Selected(mode, attrs, s);
    if selected.Err? {
      return Err(selected.error);
    }
    var name := s.Name().value;
    if !selected.value || name !in dests {
      return Ok(cur);
    }
    var d := dests[name];
    if !d.IsWriteable() || !s.IsReadable() {
      return Ok(cur);
    }
    var dt := d.Type();
    if dt.Err? {
      return Err(dt.error);
    }
    if dt.value != s.getter.value.returnType {
      return Ok(cur);
    }
    var v := InvokeGetter(w, s, orign);
    if v.Err? {
      return Err(v.error);
    }
    r := InvokeSetter(w, host, d, cur, v.value);
  }

  /**
   * The loop invariant of copy: cur has dest's class, the attributes still
   * to visit hold dest's values, and every other one holds its copied value.
   */
  ghost predicate CopiedSoFar(w: ClassWorld, host: Host, mode: int, attrs: Option<set<string>>,
                              srcs: StateMap, dests: StateMap, orign: Record, dest: Record, cur: Record, todo: set<string>)
    requires w.WellFormed() && GoodStates(w, srcs) && GoodStates(w, dests)
  {
    && cur.cls == dest.cls
    && (forall f :: f in todo ==> Field(cur, f) == Field(dest, f))
    && (forall f :: f !in todo ==> Field(cur, f) == CopiedField(w, host, mode, attrs, srcs, dests, orign, dest, f))
  }

  /** Before the loop every attribute is still to visit, and the others are not copied at all. */
  lemma CopyStart(w: ClassWorld, host: Host, mode: int, attrs: Option<set<string>>,
                  srcs: StateMap, dests: StateMap, orign: Record, dest: Record)
    requires w.WellFormed() && GoodStates(w, srcs) && GoodStates(w, dests)
    ensures CopiedSoFar(w, host, mode, attrs, srcs, dests, orign, dest, dest, srcs.Keys)
  {
  }

  /** Visiting attribute n, by the step computed on dest, advances the invariant. */
  lemma CopyAdvance(w: ClassWorld, host: Host, mode: int, attrs: Option<set<string>>,
                    srcs: StateMap, dests: StateMap, orign: Record, dest: Record, cur: Record, todo: set<string>,
                    n: string, next: Record)
    requires w.WellFormed() && GoodStates(w, srcs) && GoodStates(w, dests)
    requires CopiedSoFar(w, host, mode, attrs, srcs, dests, orign, dest, cur, todo)
    requires n in todo && n in srcs
    requires CopyStep(w, host, mode, attrs, srcs[n], dests, orign, dest).Ok?
    requires var step := CopyStep(w, host, mode, attrs, srcs[n], dests, orign, dest).value;
      next == if step.None? then cur else Record(cur.cls, cur.fields[n := step.value])
    ensures CopiedSoFar(w, host, mode, attrs, srcs, dests, orign, dest, next, todo - {n})
  {
    forall f | f !in todo - {n}
      ensures Field(next, f) == CopiedField(w, host, mode, attrs, srcs, dests, orign, dest, f)
    {
      if f != n {
        assert Field(next, f) == Field(cur, f);
      }
    }
  }

  /** No copy step throws: for every source accessor the selection, the type test, the read and the write succeed. */
  ghost predicate CopySucceeds(w: ClassWorld, host: Host, mode: int, attrs: Option<set<string>>,
                               srcs: StateMap, dests: StateMap, orign: Record, dest: Record)
    requires w.WellFormed()
  {
    && GoodStates(w, srcs) && GoodStates(w, dests)
    && forall n :: n in srcs ==> CopyStep(w, host, mode, attrs, srcs[n], dests, orign, dest).Ok?
  }

  /** The copy step of some source accessor throws e. */
  ghost predicate CopyFailsWith(w: ClassWorld, host: Host, mode: int, attrs: Option<set<string>>,
                                srcs: StateMap, dests: StateMap, orign: Record, dest: Record, e: Error)
    requires w.WellFormed()
  {
    && GoodStates(w, srcs) && GoodStates(w, dests)
    && exists n :: n in srcs && CopyStep(w, host, mode, attrs, srcs[n], dests, orign, dest) == Err(e)
  }

  /** COPY_EXCEPT with no names succeeds and fails exactly where a null set does. */
  lemma CopyExceptNothingSteps(w: ClassWorld, host: Host, srcs: StateMap, dests: StateMap, orign: Record, dest: Record)
    requires w.WellFormed()
    ensures CopySucceeds(w, host, CopyExcept, Some({}), srcs, dests, orign, dest) ==
            CopySucceeds(w, host, CopyExcept, None, srcs, dests, orign, dest)
    ensures forall e :: CopyFailsWith(w, host, CopyExcept, Some({}), srcs, dests, orign, dest, e) ==
                        CopyFailsWith(w, host, CopyExcept, None, srcs, dests, orign, dest, e)
  {
    if GoodStates(w, srcs) && GoodStates(w, dests) {
      forall n | n in srcs
        ensures CopyStep(w, host, CopyExcept, Some({}), srcs[n], dests, orign, dest) ==
                CopyStep(w, host, CopyExcept, None, srcs[n], dests, orign, dest)
      {
      }
    }
  }

  /**
   * The loop of copy(mode, attributes, orign, dest) over the source
   * accessors, in the order the map yields them; the first exception stops
   * it. As each step depends on dest's class only, the copy fails exactly
   * when some step fails, whatever the order.
   */
  method CopyLoop(w: ClassWorld, host: Host, mode: int, attrs: Option<set<string>>,
                  srcs: StateMap, dests: StateMap, orign: Record, dest: Record)
    returns (r: Result<Record>)
    requires w.WellFormed() && GoodStates(w, srcs) && GoodStates(w, dests)
    ensures r.Ok? ==> r.value.cls == dest.cls
    ensures r.Ok? ==> forall f :: Field(r.value, f) == CopiedField(w, host, mode, attrs, srcs, dests, orign, dest, f)
    ensures r.Ok? ==> forall n :: n in srcs ==> CopyStep(w, host, mode, attrs, srcs[n], dests, orign, dest).Ok?
    ensures r.Err? ==> exists n :: n in srcs && CopyStep(w, host, mode, attrs, srcs[n], dests, orign, dest) == Err(r.error)
  {
    var todo := srcs.Keys;
    var cur := dest;
    CopyStart(w, host, mode, attrs, srcs, dests, orign, dest);
    while todo != {}
      invariant todo <= srcs.Keys
      invariant CopiedSoFar(w, host, mode, attrs, srcs, dests, orign, dest, cur, todo)
      invariant forall m :: m in srcs && m !in todo ==> CopyStep(w, host, mode, attrs, srcs[m], dests, orign, dest).Ok?
      decreases |todo|
    {
      var n :| n in todo;
      var next := Visit(w, host, mode, attrs, srcs, dests, orign, dest, cur, todo, n);
      if next.Err? {
        return Err(next.error);
      }
      cur := next.value;
      todo := todo - {n};
    }
    return Ok(cur);
  }

  /** The visit of attribute n in copy's loop, with the invariant it advances. */
  method Visit(w: ClassWorld, host: Host, mode: int, attrs: Option<set<string>>,
               srcs: StateMap, dests: StateMap, orign: Record, dest: Record, cur: Record, ghost todo: set<string>, n: string)
    returns (r: Result<Record>)
    requires w.WellFormed() && GoodStates(w, srcs) && GoodStates(w, dests) && n in todo && todo <= srcs.Keys
    requires CopiedSoFar(w, host, mode, attrs, srcs, dests, orign, dest, cur, todo)
    ensures r.Ok? ==> CopiedSoFar(w, host, mode, attrs, srcs, dests, orign, dest, r.value, todo - {n})
    ensures r.Ok? <==> CopyStep(w, host, mode, attrs, srcs[n], dests, orign, dest).Ok?
    ensures r.Err? ==> CopyStep(w, host, mode, attrs, srcs[n], dests, orign, dest) == Err(r.error)
  {
    var s := srcs[n];
    CopyStepClassOnly(w, host, mode, attrs, s, dests, orign, cur, dest);
    r := CopyOne(w, host, mode, attrs, s, dests, orign, cur);
    if r.Ok? {
      CopyAdvance(w, host, mode, attrs, srcs, dests, orign, dest, cur, todo, n, r.value);
    }
  }

  /** The trimmed names of the tokens, token by token. */
  ghost function TrimmedSet(toks: seq<string>): set<string> {
    if toks == [] then {} else TrimmedSet(toks[..|toks| - 1]) + {Trim(toks[|toks| - 1])}
  }

  /** A name is in the set exactly when it is the trimmed form of some token. */
  lemma {:induction false} TrimmedSetMembers(toks: seq<string>, x: string)
    ensures x in TrimmedSet(toks) <==> exists i :: 0 <= i < |toks| && Trim(toks[i]) == x
  {
    if toks != [] {
      var init := toks[..|toks| - 1];
      TrimmedSetMembers(init, x);
      if x in TrimmedSet(init) {
        var i :| 0 <= i < |init| && Trim(init[i]) == x;
        assert toks[i] == init[i];
      }
      if exists i :: 0 <= i < |toks| && Trim(toks[i]) == x {
        var i :| 0 <= i < |toks| && Trim(toks[i]) == x;
        if i < |toks| - 1 {
          assert init[i] == toks[i];
        }
      }
    }
  }

  /** The names of a comma-separated list, each trimmed. */
  ghost function NameSet(attributes: string): set<string> {
    TrimmedSet(Tokens(attributes, ','))
  }

  /** The tokenizing loop of copy(mode, String, orign, dest). */
  method TrimmedNames(attributes: string) returns (atts: set<string>)
    ensures atts == NameSet(attributes)
  {
    var toks := Tokens(attributes, ',');
    atts := {};
    var i := 0;
    while i < |toks|
      invariant 0 <= i <= |toks|
      invariant atts == TrimmedSet(toks[..i])
    {
      assert toks[..i + 1][..i] == toks[..i];
      atts := atts + {Trim(toks[i])};
      i := i + 1;
    }
    assert toks[..i] == toks;
  }

  /** copy's attributes argument: a String of names, an array of further arguments, or anything else (null included). */
  datatype AttributeArg = Names(s: string) | Elements(items: seq<AttributeArg>) | Other

  /** The name list holds exactly the members of the sets. */
  ghost predicate Gathered(all: seq<string>, keys: seq<set<string>>)
  {
    forall x :: x in all <==> exists k :: 0 <= k < |keys| && x in keys[k]
  }

  /** Appending the names of one more set gathers that set too. */
  lemma GatheredStep(all: seq<string>, keys: seq<set<string>>, names: seq<string>, next: set<string>)
    requires Gathered(all, keys) && forall x :: x in names <==> x in next
    ensures Gathered(all + names, keys + [next])
  {
    forall x
      ensures x in all + names <==> exists k :: 0 <= k < |keys| + 1 && x in (keys + [next])[k]
    {
      if x in next {
        assert x in (keys + [next])[|keys|];
      }
      if exists k :: 0 <= k < |keys| && x in keys[k] {
        var k :| 0 <= k < |keys| && x in keys[k];
        assert x in (keys + [next])[k];
      }
    }
  }

  /** When a name list holds exactly the members of the sets and is empty, every set is empty. */
  lemma NoneInAny(keys: seq<set<string>>, all: seq<string>)
    requires Gathered(all, keys)
    requires all == []
    ensures forall k :: 0 <= k < |keys| ==> keys[k] == {}
  {
    forall k | 0 <= k < |keys|
      ensures keys[k] == {}
    {
      forall x
        ensures x !in keys[k]
      {
        assert x !in all;
      }
    }
  }

  /** The iteration over a key set: each element once, in the order the set yields them. */
  method Enumerate(keys: set<string>) returns (r: seq<string>)
    ensures |r| == |keys| && (forall x :: x in r <==> x in keys)
    ensures forall i, j :: 0 <= i < j < |r| ==> r[i] != r[j]
  {
    var todo := keys;
    r := [];
    while todo != {}
      invariant todo <= keys
      invariant forall x :: x in r <==> x in keys && x !in todo
      invariant |r| + |todo| == |keys|
      invariant forall i, j :: 0 <= i < j < |r| ==> r[i] != r[j]
      decreases |todo|
    {
      var x :| x in todo;
      r := r + [x];
      todo := todo - {x};
    }
  }

  /**
   * The static accessor cache of AccessorUtil, as an object: one map of
   * accessors per class, each built on the first request for that class.
   */
  class Registry {
    const world: ClassWorld
    var cache: map<ClassName, map<string, Accessor>>
    /** Where each held accessor sits in the cache; that this is a function makes the entries distinct objects. */
    ghost var Slot: map<Accessor, (ClassName, string)>

    ghost predicate Valid()
      reads this, Slot.Keys
    {
      && world.WellFormed()
      && (forall c, n :: c in cache && n in cache[c] ==>
            && cache[c][n] in Slot && Slot[cache[c][n]] == (c, n)
            && GoodEntry(world, cache[c][n], n))
    }

    constructor (w: ClassWorld)
      requires w.WellFormed()
      ensures Valid() && world == w && cache == map[]
    {
      world := w;
      cache := map[];
      Slot := map[];
    }

    /**
     * getAccessorsMap(clazz, obj, updateOwner): on a miss, discovers and
     * caches the accessors of clazz (nothing is cached if discovery
     * throws); on a hit returns the cached map, after re-owning every
     * accessor when updateOwner is set. 
     */
    method GetAccessorsMap(clazz: ClassName, obj: Option<Record>, updateOwner: bool)
      returns (r: Result<map<string, Accessor>>)
      requires Valid()
      modifies this, Slot.Keys
      ensures Valid() && old(Slot.Keys) <= Slot.Keys && fresh(Slot.Keys - old(Slot.Keys))
      ensures r.Ok? ==> clazz in cache && r.value == cache[clazz]
      ensures forall c :: c in old(cache) ==> c in cache && cache[c] == old(cache)[c]
      ensures clazz !in old(cache) && r.Err? ==>
        Discover(world, clazz, obj, world.MethodsOf(clazz)) == Err(r.error) && cache == old(cache)
      ensures clazz !in old(cache) && r.Ok? ==>
        cache == old(cache)[clazz := r.value] && Discovered(world, clazz, obj, r.value) &&
        forall n :: n in r.value ==> fresh(r.value[n])
      ensures clazz in old(cache) ==> cache == old(cache)
      ensures clazz in old(cache) && !updateOwner ==>
        r.Ok? && forall n :: n in cache[clazz] ==> cache[clazz][n].State() == old(cache[clazz][n].State())
      ensures clazz in old(cache) && updateOwner && r.Ok? ==>
        forall n :: n in cache[clazz] ==> UpdateOwner(world, old(cache[clazz][n].State()), obj) == (Pass, cache[clazz][n].State())
      ensures clazz in old(cache) && updateOwner && r.Err? ==>
        exists n :: n in cache[clazz] && UpdateOwner(world, old(cache[clazz][n].State()), obj).0 == Fail(r.error)
    {
      if clazz !in cache {
        r := Fill(clazz, obj);
        return;
      }
      if updateOwner {
        var out := ReOwn(clazz, obj);
        if out.Fail? {
          return Err(out.error);
        }
      }
      return Ok(cache[clazz]);
    }

    /** getAccessorsMap(obj): the accessors of obj's class, re-owned to obj when they were cached already. */
    method GetAccessorsMapOf(obj: Record) returns (r: Result<map<string, Accessor>>)
      requires Valid()
      modifies this, Slot.Keys
      ensures Valid() && old(Slot.Keys) <= Slot.Keys && fresh(Slot.Keys - old(Slot.Keys))
      ensures r.Ok? ==> obj.cls in cache && r.value == cache[obj.cls]
      ensures forall c :: c in old(cache) ==> c in cache && cache[c] == old(cache)[c]
      ensures cache.Keys <= old(cache).Keys + {obj.cls}
      ensures obj.cls in old(cache) && r.Ok? ==>
        forall n :: n in cache[obj.cls] ==> cache[obj.cls][n].State() == UpdateOwner(world, old(cache[obj.cls][n].State()), Some(obj)).1
      ensures obj.cls !in old(cache) && r.Ok? ==>
        cache == old(cache)[obj.cls := r.value] && Discovered(world, obj.cls, Some(obj), r.value)
      ensures r.Ok? <==> old(FetchOk(obj))
      ensures r.Err? ==> old(FetchFails(obj, r.error)) && cache == old(cache)
    {
      r := GetAccessorsMap(obj.cls, Some(obj), true);
    }

    /** getAccessorsMap(obj) succeeds: on a miss discovery succeeds, on a hit every owner update does. */
    ghost predicate FetchOk(obj: Record)
      requires Valid()
      reads this, Slot.Keys
    {
      if obj.cls in cache then
        forall n :: n in cache[obj.cls] ==> UpdateOwner(world, cache[obj.cls][n].State(), Some(obj)).0 == Pass
      else Discover(world, obj.cls, Some(obj), world.MethodsOf(obj.cls)).Ok?
    }

    /** getAccessorsMap(obj) can throw e: on a miss discovery throws it, on a hit the owner update of some accessor does. */
    ghost predicate FetchFails(obj: Record, e: Error)
      requires Valid()
      reads this, Slot.Keys
    {
      if obj.cls in cache then
        exists n :: n in cache[obj.cls] && UpdateOwner(world, cache[obj.cls][n].State(), Some(obj)).0 == Fail(e)
      else Discover(world, obj.cls, Some(obj), world.MethodsOf(obj.cls)) == Err(e)
    }

    /** On a hit getAccessorsMap(obj) can throw only an IncompatibleClassException. */
    lemma HitFailsIncompatible(obj: Record)
      requires Valid() && obj.cls in cache
      ensures forall e :: FetchFails(obj, e) ==> e == IncompatibleClass
    {
      forall e | FetchFails(obj, e)
        ensures e == IncompatibleClass
      {
        var n :| n in cache[obj.cls] && UpdateOwner(world, cache[obj.cls][n].State(), Some(obj)).0 == Fail(e);
        OwnerUpdateRefusal(world, cache[obj.cls][n].State(), Some(obj));
      }
    }

    /**
     * The states getAccessorsMap(c) leaves for the accessors of c: on a hit
     * the cached ones with their owner cleared, on a miss those discovered
     * with no owner -- or the exception discovery throws.
     */
    ghost function Unbound(c: ClassName): Result<StateMap>
      requires Valid()
      reads this, Slot.Keys
    {
      if c in cache then Ok(map n | n in cache[c] :: cache[c][n].State().(owner := None))
      else Discover(world, c, None, world.MethodsOf(c))
    }

    /** When no accessor of c has an owner, clearing the owners changes nothing. */
    lemma UnboundIdle(c: ClassName)
      requires Valid() && c in cache && forall n :: n in cache[c] ==> cache[c][n].owner.None?
      ensures Unbound(c) == Ok(States(cache[c]))
    {
      assert Unbound(c).value == States(cache[c]);
    }

    /** getAccessorsMap(clazz), i.e. getAccessorsMap(clazz, null, true): the accessors of clazz, each without owner. */
    method GetAccessorsMapOfClass(clazz: ClassName) returns (r: Result<map<string, Accessor>>)
      requires Valid()
      modifies this, Slot.Keys
      ensures Valid() && old(Slot.Keys) <= Slot.Keys && fresh(Slot.Keys - old(Slot.Keys))
      ensures forall c :: c in old(cache) ==> c in cache && cache[c] == old(cache)[c]
      ensures cache.Keys <= old(cache).Keys + {clazz}
      ensures r.Err? ==> old(Unbound(clazz)) == Err(r.error) && cache == old(cache)
      ensures r.Ok? ==> clazz in cache && r.value == cache[clazz] && old(Unbound(clazz)) == Ok(States(cache[clazz]))
      ensures r.Ok? ==> forall n :: n in cache[clazz] ==> cache[clazz][n].owner.None?
    {
      ghost var hit := clazz in cache;
      r := GetAccessorsMap(clazz, None, true);
      if r.Ok? {
        if hit {
          forall n | n in cache[clazz]
            ensures cache[clazz][n].State() == old(cache[clazz][n].State()).(owner := None)
          {
            UpdateToNullUnbinds(world, old(cache[clazz][n].State()));
          }
        } else {
          DiscoverUnbound(world, clazz, world.MethodsOf(clazz));
        }
        assert old(Unbound(clazz)).value == States(cache[clazz]);
      }
    }

    /** The cache-miss branch: discover the accessors of clazz and cache them. */
    method Fill(clazz: ClassName, obj: Option<Record>) returns (r: Result<map<string, Accessor>>)
      requires Valid() && clazz !in cache
      modifies this
      ensures Valid() && old(Slot.Keys) <= Slot.Keys && fresh(Slot.Keys - old(Slot.Keys))
      ensures r.Err? ==> Discover(world, clazz, obj, world.MethodsOf(clazz)) == Err(r.error) && cache == old(cache)
      ensures r.Ok? ==> cache == old(cache)[clazz := r.value] && Discovered(world, clazz, obj, r.value)
      ensures r.Ok? ==> forall n :: n in r.value ==> fresh(r.value[n])
    {
      var built := BuildAccessors(world, clazz, obj);
      if built.Err? {
        return Err(built.error);
      }
      Install(clazz, built.value);
      return Ok(built.value);
    }

    /** cache.put(clazz, m) for freshly built accessors m. */
    method Install(clazz: ClassName, m: map<string, Accessor>)
      requires Valid() && clazz !in cache && Injective(m)
      requires forall n :: n in m ==> m[n] !in Slot && GoodEntry(world, m[n], n)
      modifies this
      ensures Valid() && cache == old(cache)[clazz := m] && Slot.Keys == old(Slot.Keys) + m.Values
    {
      ghost var before := cache;
      ghost var added := map n | n in m :: m[n] := (clazz, n);
      cache := cache[clazz := m];
      Slot := Slot + added;
      forall c, n | c in cache && n in cache[c]
        ensures cache[c][n] in Slot && Slot[cache[c][n]] == (c, n) && GoodEntry(world, cache[c][n], n)
      {
        if c != clazz {
          assert cache[c][n] == before[c][n] && cache[c][n] !in added;
        }
      }
    }

    /** The cache-hit branch with updateOwner: every accessor of clazz is re-owned to obj. */
    method ReOwn(clazz: ClassName, obj: Option<Record>) returns (r: Outcome)
      requires Valid() && clazz in cache
      modifies Slot.Keys
      ensures Valid()
      ensures r == Pass ==>
        forall n :: n in cache[clazz] ==> UpdateOwner(world, old(cache[clazz][n].State()), obj) == (Pass, cache[clazz][n].State())
      ensures r.Fail? ==>
        exists n :: n in cache[clazz] && UpdateOwner(world, old(cache[clazz][n].State()), obj).0 == r
    {
      r := ReOwnEach(clazz, cache[clazz].Keys, obj);
    }

    /**
     * The iteration over the accessors of clazz named in todo, in any
     * order; the first exception stops it.
     */
    method ReOwnEach(clazz: ClassName, todo: set<string>, obj: Option<Record>) returns (r: Outcome)
      requires Valid() && clazz in cache && todo <= cache[clazz].Keys
      modifies Slot.Keys
      ensures Valid()
      ensures forall n :: n in cache[clazz] && n !in todo ==> cache[clazz][n].State() == old(cache[clazz][n].State())
      ensures r == Pass ==>
        forall n :: n in todo ==> UpdateOwner(world, old(cache[clazz][n].State()), obj) == (Pass, cache[clazz][n].State())
      ensures r.Fail? ==>
        exists n :: n in todo && UpdateOwner(world, old(cache[clazz][n].State()), obj).0 == r
      decreases todo
    {
      if todo == {} {
        return Pass;
      }
      var n :| n in todo;
      r := ReOwnOne(clazz, n, obj);
      if r.Fail? {
        return;
      }
      r := ReOwnEach(clazz, todo - {n}, obj);
    }

    /** One iteration of the re-owning loop: the accessor of attribute n; every other cached accessor is untouched. */
    method ReOwnOne(clazz: ClassName, n: string, obj: Option<Record>) returns (r: Outcome)
      requires Valid() && clazz in cache && n in cache[clazz]
      modifies cache[clazz][n]
      ensures Valid()
      ensures (r, cache[clazz][n].State()) == UpdateOwner(world, old(cache[clazz][n].State()), obj)
      ensures forall c, m :: c in cache && m in cache[c] && (c != clazz || m != n) ==>
        cache[c][m].State() == old(cache[c][m].State())
    {
      r := Pass;
      if obj.None? || cache[clazz][n].owner != obj {
        r := Bind(clazz, n, obj);
      }
    }

    /** setOwner(obj) on the cached accessor of attribute n of clazz. */
    method Bind(clazz: ClassName, n: string, obj: Option<Record>) returns (r: Outcome)
      requires Valid() && clazz in cache && n in cache[clazz]
      modifies cache[clazz][n]
      ensures Valid()
      ensures (r, cache[clazz][n].State()) == SetOwnerStep(world, old(cache[clazz][n].State()), obj)
      ensures r == Pass ==> cache[clazz][n].owner == obj
      ensures forall c, m :: c in cache && m in cache[c] && (c != clazz || m != n) ==>
        cache[c][m].State() == old(cache[c][m].State())
      ensures States(cache[clazz]) == old(States(cache[clazz]))[n := cache[clazz][n].State()]
    {
      var a := cache[clazz][n];
      assert GoodEntry(world, a, n);
      OwnerStepsKeepMethods(world, a.State(), obj, None);
      r := a.SetOwner(world, obj);
      assert GoodEntry(world, a, n);
      assert States(cache[clazz]) == old(States(cache[clazz]))[n := cache[clazz][n].State()];
    }

    /** getAccessor(name, clazz): the cached accessor of that attribute, unbound from any owner, or null. */
    method GetAccessor(name: string, clazz: ClassName) returns (r: Result<Option<Accessor>>)
      requires Valid()
      modifies this, Slot.Keys
      ensures Valid() && old(Slot.Keys) <= Slot.Keys && fresh(Slot.Keys - old(Slot.Keys))
      ensures forall c :: c in old(cache) ==> c in cache && cache[c] == old(cache)[c]
      ensures clazz in old(cache) ==> r.Ok? && cache == old(cache)
      ensures r.Err? ==> old(Unbound(clazz)) == Err(r.error) && cache == old(cache)
      ensures r.Ok? ==> clazz in cache && r.value == Lookup(cache[clazz], name)
      ensures r.Ok? ==> old(Unbound(clazz)) == Ok(States(cache[clazz]))
      ensures r.Ok? ==> forall n :: n in cache[clazz] ==> cache[clazz][n].owner.None?
    {
      var m :- GetAccessorsMapOfClass(clazz);
      return Ok(Lookup(m, name));
    }

    /** getAccessor(name, obj): the accessor of that attribute of obj's class, bound to obj, or null. */
    method GetAccessorOf(name: string, obj: Record) returns (r: Result<Option<Accessor>>)
      requires Valid()
      modifies this, Slot.Keys
      ensures Valid() && old(Slot.Keys) <= Slot.Keys && fresh(Slot.Keys - old(Slot.Keys))
      ensures r.Ok? ==> obj.cls in cache && r.value == Lookup(cache[obj.cls], name)
      ensures r.Ok? && r.value.Some? ==> r.value.value.owner == Some(obj)
      ensures r.Ok? ==> old(Unbound(obj.cls)).Ok?
      ensures r.Ok? ==> var before := old(Unbound(obj.cls)).value;
        States(cache[obj.cls]) == if name in before then before[name := SetOwnerStep(world, before[name], Some(obj)).1] else before
      ensures r.Err? ==> var before := old(Unbound(obj.cls));
        before == Err(r.error) || (before.Ok? && name in before.value && SetOwnerStep(world, before.value[name], Some(obj)).0 == Fail(r.error))
    {
      var ac :- GetAccessor(name, obj.cls);
      ghost var before := States(cache[obj.cls]);
      if ac.Some? {
        assert name in cache[obj.cls] && cache[obj.cls][name] in Slot;
        var out := Bind(obj.cls, name, Some(obj));
        if out.Fail? {
          return Err(out.error);
        }
      }
      return Ok(ac);
    }

    /** getAccessors(names, clazz): one lookup per comma-separated, trimmed name, or null when there are none. */
    method GetAccessors(names: string, clazz: ClassName) returns (r: Result<Option<seq<Option<Accessor>>>>)
      requires Valid()
      modifies this, Slot.Keys
      ensures Valid()
      ensures r.Ok? ==> (r.value.None? <==> Tokens(names, ',') == [])
      ensures Tokens(names, ',') == [] ==> r == Ok(None)
      ensures r.Err? ==> old(Unbound(clazz)) == Err(r.error)
      ensures r.Ok? && r.value.Some? ==> clazz in cache && old(Unbound(clazz)) == Ok(States(cache[clazz]))
      ensures r.Ok? && r.value.Some? ==>
        var toks := Tokens(names, ',');
        clazz in cache && |r.value.value| == |toks| &&
        forall k :: 0 <= k < |toks| ==> r.value.value[k] == Lookup(cache[clazz], Trim(toks[k]))
    {
      var toks := Tokens(names, ',');
      var wanted := seq(|toks|, k requires 0 <= k < |toks| => Trim(toks[k]));
      var acs :- GetEach(wanted, clazz);
      if acs == [] {
        return Ok(None);
      }
      return Ok(Some(acs));
    }

    /** The loop of getAccessors: getAccessor(name, clazz) for each name in turn; the first exception stops it. */
    method GetEach(wanted: seq<string>, clazz: ClassName) returns (r: Result<seq<Option<Accessor>>>)
      requires Valid()
      modifies this, Slot.Keys
      ensures Valid()
      ensures r.Ok? ==> |r.value| == |wanted|
      ensures r.Ok? && wanted != [] ==> clazz in cache && forall k :: 0 <= k < |wanted| ==> r.value[k] == Lookup(cache[clazz], wanted[k])
      ensures wanted == [] ==> r == Ok([])
      ensures r.Err? ==> old(Unbound(clazz)) == Err(r.error)
      ensures r.Ok? && wanted != [] ==> old(Unbound(clazz)) == Ok(States(cache[clazz]))
    {
      var acs: seq<Option<Accessor>> := [];
      ghost var held: map<string, Accessor> := map[];
      var i := 0;
      while i < |wanted|
        invariant 0 <= i <= |wanted| && |acs| == i && Valid() && fresh(Slot.Keys - old(Slot.Keys))
        invariant i > 0 ==> clazz in cache && cache[clazz] == held
        invariant LookedUp(acs, held, wanted)
        invariant i == 0 ==> Unbound(clazz) == old(Unbound(clazz))
        invariant i > 0 ==>
          old(Unbound(clazz)) == Ok(States(cache[clazz])) && forall n :: n in cache[clazz] ==> cache[clazz][n].owner.None?
      {
        if i > 0 {
          UnboundIdle(clazz);
        }
        var ac :- GetAccessor(wanted[i], clazz);
        if i == 0 {
          held := cache[clazz];
        }
        LookedUpSnoc(acs, held, wanted, ac);
        acs := acs + [ac];
        i := i + 1;
      }
      return Ok(acs);
    }

    /** getAllAttributesName(clazz): every attribute name once, in some order, or null when there are none. */
    method GetAllAttributesName(clazz: ClassName) returns (r: Result<Option<seq<string>>>)
      requires Valid()
      modifies this, Slot.Keys
      ensures Valid()
      ensures old(Slot.Keys) <= Slot.Keys && fresh(Slot.Keys - old(Slot.Keys))
      ensures forall c :: c in old(cache) ==> c in cache && cache[c] == old(cache)[c]
      ensures r.Ok? ==> clazz in cache && (r.value.None? <==> cache[clazz] == map[])
      ensures r.Ok? && r.value.Some? ==>
        && |r.value.value| == |cache[clazz].Keys|
        && (forall x :: x in r.value.value <==> x in cache[clazz])
        && (forall i, j :: 0 <= i < j < |r.value.value| ==> r.value.value[i] != r.value.value[j])
      ensures cache.Keys <= old(cache).Keys + {clazz}
      ensures r.Err? ==> old(Unbound(clazz)) == Err(r.error) && cache == old(cache)
      ensures r.Ok? ==> old(Unbound(clazz)) == Ok(States(cache[clazz]))
      ensures r.Err? ==> clazz !in old(cache) && DiscoveryFails(clazz, r.error)
      ensures r.Ok? && clazz !in old(cache) ==> Discovers(clazz, cache[clazz].Keys)
    {
      var m :- GetAccessorsMapOfClass(clazz);
      assert States(m).Keys == m.Keys;
      if m.Keys == {} {
        return Ok(None);
      }
      var names := Enumerate(m.Keys);
      return Ok(Some(names));
    }

    /**
     * getAllAttributesName(classes): the names of every class in turn,
     * concatenated, or null when no class has any.
     */
    method GetAllAttributesNames(classes: seq<ClassName>) returns (r: Result<Option<seq<string>>>)
      requires Valid()
      modifies this, Slot.Keys
      ensures Valid()
      ensures r.Ok? ==> forall k :: 0 <= k < |classes| ==> classes[k] in cache
      ensures r.Ok? ==> (r.value.None? <==> forall k :: 0 <= k < |classes| ==> cache[classes[k]].Keys == {})
      ensures r.Ok? && r.value.Some? ==>
        forall x :: x in r.value.value <==> exists k :: 0 <= k < |classes| && x in cache[classes[k]].Keys
      ensures r.Ok? ==> Grows(old(cache), cache)
      ensures r.Err? ==> exists k :: 0 <= k < |classes| && classes[k] !in old(cache) && DiscoveryFails(classes[k], r.error)
    {
      var all: seq<string> := [];
      ghost var keys: seq<set<string>> := [];
      var i := 0;
      while i < |classes|
        invariant 0 <= i <= |classes| && |keys| == i
        invariant Valid() && old(Slot.Keys) <= Slot.Keys && fresh(Slot.Keys - old(Slot.Keys))
        invariant Listed(classes, keys, cache)
        invariant Gathered(all, keys)
        invariant Grows(old(cache), cache)
      {
        var next := Collect(old(cache), classes, i, all, keys);
        if next.Err? {
          return Err(next.error);
        }
        all := next.value;
        keys := keys + [cache[classes[i]].Keys];
        i := i + 1;
      }
      ListedGathered(classes, keys, all, cache);
      return if all == [] then Ok(None) else Ok(Some(all));
    }

    /** One iteration of the loop over classes: the names of the next class appended to those gathered so far. */
    method Collect(ghost base: map<ClassName, map<string, Accessor>>, classes: seq<ClassName>,
                   i: nat, all: seq<string>, ghost keys: seq<set<string>>) returns (r: Result<seq<string>>)
      requires Valid() && i == |keys| < |classes|
      requires Listed(classes, keys, cache) && Gathered(all, keys) && Grows(base, cache)
      modifies this, Slot.Keys
      ensures Valid() && old(Slot.Keys) <= Slot.Keys && fresh(Slot.Keys - old(Slot.Keys))
      ensures r.Err? ==> classes[i] !in base && DiscoveryFails(classes[i], r.error)
      ensures r.Ok? ==> classes[i] in cache
      ensures r.Ok? ==>
        && Listed(classes, keys + [cache[classes[i]].Keys], cache)
        && Gathered(r.value, keys + [cache[classes[i]].Keys])
        && Grows(base, cache)
    {
      ghost var before := cache;
      var names := NamesOf(classes[i]);
      if names.Err? {
        return Err(names.error);
      }
      GatheredStep(all, keys, names.value, cache[classes[i]].Keys);
      GrowsStep(base, before, cache, classes, keys);
      return Ok(all + names.value);
    }

    /** One call of getAllAttributesName(c) in the loop over classes: its names, none for null. */
    method NamesOf(c: ClassName) returns (r: Result<seq<string>>)
      requires Valid()
      modifies this, Slot.Keys
      ensures Valid() && old(Slot.Keys) <= Slot.Keys && fresh(Slot.Keys - old(Slot.Keys))
      ensures r.Err? ==> c !in old(cache) && DiscoveryFails(c, r.error)
      ensures r.Ok? ==> Fetched(old(cache), cache, c) && forall x :: x in r.value <==> x in cache[c]
    {
      var names :- GetAllAttributesName(c);
      return Ok(if names.Some? then names.value else []);
    }

    /** cur is mid with c fetched: mid's entries are kept, and c, if new, holds what discovery finds. */
    ghost predicate Fetched(mid: map<ClassName, map<string, Accessor>>, cur: map<ClassName, map<string, Accessor>>, c: ClassName)
      requires world.WellFormed()
    {
      && (forall d :: d in mid ==> d in cur && cur[d] == mid[d])
      && cur.Keys <= mid.Keys + {c} && c in cur
      && (c !in mid ==> Discovers(c, cur[c].Keys))
    }

    /** Discovery for c with no owner throws e. */
    ghost predicate DiscoveryFails(c: ClassName, e: Error)
      requires world.WellFormed()
    {
      Discover(world, c, None, world.MethodsOf(c)) == Err(e)
    }

    /** cur extends base: it keeps base's classes, and each class it adds holds what discovery finds. */
    ghost predicate Grows(base: map<ClassName, map<string, Accessor>>, cur: map<ClassName, map<string, Accessor>>)
      requires world.WellFormed()
    {
      base.Keys <= cur.Keys && forall c :: c in cur && c !in base ==> Discovers(c, cur[c].Keys)
    }

    /** The first |keys| classes are in cur, with the attribute names keys lists. */
    ghost predicate Listed(classes: seq<ClassName>, keys: seq<set<string>>, cur: map<ClassName, map<string, Accessor>>)
    {
      |keys| <= |classes| && forall k :: 0 <= k < |keys| ==> classes[k] in cur && cur[classes[k]].Keys == keys[k]
    }

    /** Every class fetched: the names gathered are those of all the classes, and none are iff no class has any. */
    lemma ListedGathered(classes: seq<ClassName>, keys: seq<set<string>>, all: seq<string>, cur: map<ClassName, map<string, Accessor>>)
      requires Listed(classes, keys, cur) && |keys| == |classes| && Gathered(all, keys)
      ensures forall k :: 0 <= k < |classes| ==> classes[k] in cur
      ensures all == [] <==> forall k :: 0 <= k < |classes| ==> cur[classes[k]].Keys == {}
      ensures forall x :: x in all <==> exists k :: 0 <= k < |classes| && x in cur[classes[k]].Keys
    {
      if all == [] {
        NoneInAny(keys, all);
      } else {
        assert all[0] in all;
      }
    }

    /** One more class fetched: the cache still extends the original one and lists one class more. */
    lemma GrowsStep(base: map<ClassName, map<string, Accessor>>, mid: map<ClassName, map<string, Accessor>>,
                    cur: map<ClassName, map<string, Accessor>>, classes: seq<ClassName>, keys: seq<set<string>>)
      requires world.WellFormed()
      requires Grows(base, mid) && Listed(classes, keys, mid) && |keys| < |classes|
      requires Fetched(mid, cur, classes[|keys|])
      ensures Grows(base, cur) && Listed(classes, keys + [cur[classes[|keys|]].Keys], cur)
    {
    }

    /** Discovery for c with no owner succeeds, and finds the attributes named in keys. */
    ghost predicate Discovers(c: ClassName, keys: set<string>)
      requires world.WellFormed()
    {
      Discover(world, c, None, world.MethodsOf(c)).Ok? && Discover(world, c, None, world.MethodsOf(c)).value.Keys == keys
    }

    /** A cached map's accessor states are valid, each under its own name. */
    lemma CachedGood(c: ClassName)
      requires Valid() && c in cache
      ensures GoodStates(world, States(cache[c]))
    {
      forall n | n in cache[c]
        ensures States(cache[c])[n].Valid() && States(cache[c])[n].Name() == Some(n)
      {
        assert GoodEntry(world, cache[c][n], n);
      }
    }

    /**
     * copy(mode, attributes, orign, dest) with a set of names (None for a
     * null set): the accessors of orign's class and of dest's class are
     * re-owned to orign and to dest, then every selected attribute that dest
     * can take is copied.
     */
    method CopySet(host: Host, mode: int, attrs: Option<set<string>>, orign: Record, dest: Record)
      returns (r: Result<Record>)
      requires Valid()
      modifies this, Slot.Keys
      ensures Valid() && old(Slot.Keys) <= Slot.Keys && fresh(Slot.Keys - old(Slot.Keys))
      ensures r.Ok? ==> orign.cls in cache && dest.cls in cache && r.value.cls == dest.cls
      ensures r.Ok? ==>
        && GoodStates(world, States(cache[orign.cls])) && GoodStates(world, States(cache[dest.cls]))
        && forall f :: Field(r.value, f) ==
             CopiedField(world, host, mode, attrs, States(cache[orign.cls]), States(cache[dest.cls]), orign, dest, f)
      ensures r.Ok? ==> old(FetchOk(orign))
      ensures r.Ok? ==> CopySucceeds(world, host, mode, attrs, States(cache[orign.cls]), States(cache[dest.cls]), orign, dest)
      ensures r.Err? ==>
        || old(FetchFails(orign, r.error))
        || (old(FetchOk(orign)) && DestFetchFails(old(cache).Keys, orign, dest, r.error))
        || (orign.cls in cache && dest.cls in cache &&
            CopyFailsWith(world, host, mode, attrs, States(cache[orign.cls]), States(cache[dest.cls]), orign, dest, r.error))
    {
      var maps :- FetchMaps(orign, dest);
      CachedGood(orign.cls);
      CachedGood(dest.cls);
      r := CopyLoop(world, host, mode, attrs, States(maps.0), States(maps.1), orign, dest);
    }

    /**
     * After getAccessorsMap(orign) has succeeded, getAccessorsMap(dest) can
     * throw e: discovery throws it when dest's class is new, and otherwise
     * the owner update of one of its cached accessors refuses dest.
     */
    ghost predicate DestFetchFails(cached: set<ClassName>, orign: Record, dest: Record, e: Error)
      requires world.WellFormed()
    {
      if dest.cls in cached || dest.cls == orign.cls then e == IncompatibleClass
      else Discover(world, dest.cls, Some(dest), world.MethodsOf(dest.cls)) == Err(e)
    }

    /** The two map lookups of copy: getAccessorsList(orign), then getAccessorsMap(dest). */
    method FetchMaps(orign: Record, dest: Record) returns (r: Result<(map<string, Accessor>, map<string, Accessor>)>)
      requires Valid()
      modifies this, Slot.Keys
      ensures Valid() && old(Slot.Keys) <= Slot.Keys && fresh(Slot.Keys - old(Slot.Keys))
      ensures r.Ok? ==> orign.cls in cache && dest.cls in cache && r.value == (cache[orign.cls], cache[dest.cls])
      ensures r.Ok? ==> old(FetchOk(orign))
      ensures r.Err? ==> old(FetchFails(orign, r.error)) || (old(FetchOk(orign)) && DestFetchFails(old(cache).Keys, orign, dest, r.error))
    {
      var srcMap :- GetAccessorsMapOf(orign);
      if dest.cls in cache {
        HitFailsIncompatible(dest);
      }
      var destMap := GetAccessorsMapOf(dest);
      if destMap.Err? {
        return Err(destMap.error);
      }
      return Ok((srcMap, destMap.value));
    }

    /** copy(mode, attributes, orign, dest) with a String: the comma-separated, trimmed names as the set. */
    method CopyNames(host: Host, mode: int, attributes: string, orign: Record, dest: Record)
      returns (r: Result<Record>)
      requires Valid()
      modifies this, Slot.Keys
      ensures Valid() && old(Slot.Keys) <= Slot.Keys && fresh(Slot.Keys - old(Slot.Keys))
      ensures r.Ok? ==> orign.cls in cache && dest.cls in cache && r.value.cls == dest.cls
      ensures r.Ok? ==>
        && GoodStates(world, States(cache[orign.cls])) && GoodStates(world, States(cache[dest.cls]))
        && forall f :: Field(r.value, f) ==
             CopiedField(world, host, mode, Some(NameSet(attributes)), States(cache[orign.cls]), States(cache[dest.cls]), orign, dest, f)
      ensures r.Ok? ==> old(FetchOk(orign))
      ensures r.Ok? ==> CopySucceeds(world, host, mode, Some(NameSet(attributes)), States(cache[orign.cls]), States(cache[dest.cls]), orign, dest)
      ensures r.Err? ==>
        || old(FetchFails(orign, r.error))
        || (old(FetchOk(orign)) && DestFetchFails(old(cache).Keys, orign, dest, r.error))
        || (orign.cls in cache && dest.cls in cache &&
            CopyFailsWith(world, host, mode, Some(NameSet(attributes)), States(cache[orign.cls]), States(cache[dest.cls]), orign, dest, r.error))
    {
      var atts := TrimmedNames(attributes);
      r := CopySet(host, mode, Some(atts), orign, dest);
    }

    /** copy(orign, dest): COPY_EXCEPT with no names, which copies every attribute dest can take. */
    method CopyAll(host: Host, orign: Record, dest: Record) returns (r: Result<Record>)
      requires Valid()
      modifies this, Slot.Keys
      ensures Valid() && old(Slot.Keys) <= Slot.Keys && fresh(Slot.Keys - old(Slot.Keys))
      ensures r.Ok? ==> orign.cls in cache && dest.cls in cache && r.value.cls == dest.cls
      ensures r.Ok? ==>
        && GoodStates(world, States(cache[orign.cls])) && GoodStates(world, States(cache[dest.cls]))
        && forall f :: Field(r.value, f) ==
             CopiedField(world, host, CopyExcept, None, States(cache[orign.cls]), States(cache[dest.cls]), orign, dest, f)
      ensures r.Ok? ==> old(FetchOk(orign))
      ensures r.Ok? ==> CopySucceeds(world, host, CopyExcept, None, States(cache[orign.cls]), States(cache[dest.cls]), orign, dest)
      ensures r.Err? ==>
        || old(FetchFails(orign, r.error))
        || (old(FetchOk(orign)) && DestFetchFails(old(cache).Keys, orign, dest, r.error))
        || (orign.cls in cache && dest.cls in cache &&
            CopyFailsWith(world, host, CopyExcept, None, States(cache[orign.cls]), States(cache[dest.cls]), orign, dest, r.error))
    {
      r := CopyNames(host, CopyExcept, "", orign, dest);
      assert NameSet("") == {};
      if orign.cls in cache && dest.cls in cache {
        CopyExceptNothingSteps(world, host, States(cache[orign.cls]), States(cache[dest.cls]), orign, dest);
      }
      if r.Ok? {
        forall f | true
          ensures Field(r.value, f) ==
            CopiedField(world, host, CopyExcept, None, States(cache[orign.cls]), States(cache[dest.cls]), orign, dest, f)
        {
          CopyExceptNothingIsCopyAll(world, host, States(cache[orign.cls]), States(cache[dest.cls]), orign, dest, f);
        }
      }
    }

    /**
     * copy(mode, Object attributes, orign, dest): a String is split into
     * names, an array copies with each element in turn, anything else
     * copies nothing.
     */
    method CopyArg(host: Host, mode: int, arg: AttributeArg, orign: Record, dest: Record)
      returns (r: Result<Record>)
      requires Valid()
      modifies this, Slot.Keys
      ensures Valid() && old(Slot.Keys) <= Slot.Keys && fresh(Slot.Keys - old(Slot.Keys))
      ensures r.Ok? ==> r.value.cls == dest.cls
      ensures arg.Other? || arg == Elements([]) ==> r == Ok(dest)
      ensures arg.Names? && r.Ok? ==>
        && orign.cls in cache && dest.cls in cache
        && GoodStates(world, States(cache[orign.cls])) && GoodStates(world, States(cache[dest.cls]))
        && forall f :: Field(r.value, f) ==
             CopiedField(world, host, mode, Some(NameSet(arg.s)), States(cache[orign.cls]), States(cache[dest.cls]), orign, dest, f)
      ensures arg.Names? && r.Ok? ==> old(FetchOk(orign))
      ensures arg.Names? && r.Ok? ==>
        CopySucceeds(world, host, mode, Some(NameSet(arg.s)), States(cache[orign.cls]), States(cache[dest.cls]), orign, dest)
      ensures arg.Names? && r.Err? ==>
        || old(FetchFails(orign, r.error))
        || (old(FetchOk(orign)) && DestFetchFails(old(cache).Keys, orign, dest, r.error))
        || (orign.cls in cache && dest.cls in cache &&
            CopyFailsWith(world, host, mode, Some(NameSet(arg.s)), States(cache[orign.cls]), States(cache[dest.cls]), orign, dest, r.error))
      decreases arg
    {
      match arg
      case Names(s) =>
        r := CopyNames(host, mode, s, orign, dest);
      case Elements(items) =>
        var cur := dest;
        var i := 0;
        while i < |items|
          invariant 0 <= i <= |items| && cur.cls == dest.cls
          invariant Valid() && old(Slot.Keys) <= Slot.Keys && fresh(Slot.Keys - old(Slot.Keys))
          invariant items == [] ==> cur == dest
        {
          cur :- CopyArg(host, mode, items[i], orign, cur);
          i := i + 1;
        }
        r := Ok(cur);
      case Other =>
        r := Ok(dest);
    }
  }
}
