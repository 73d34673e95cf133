# cbr-classify in Dafny

A model of the case-based reasoning classifier `zx.soft.cbr.classify`, with
proofs about it. The model covers three parts.

1. **Weighted feature similarity.** This is `FeatureSimilarity`,
   `DefaultFeatureComparator`, `FeatureImpl` and `CaseSimilarityImpl`.
   A query case is compared attribute by attribute with a set of candidate
   cases. Each selected feature contributes its comparator score times its
   weight. The sum is normalised by the query's maximum attainable score,
   and candidates whose percentage reaches the threshold are returned.
2. **The attribute-accessor layer.** This is `Accessor`, `AccessorUtil`,
   `ReflectionUtil` and `ObjectUtil`.
   - An `Accessor` pairs a getter and a setter behind guarded setters.
   - `AccessorUtil` discovers one accessor per attribute of a class, caches
     them per class, looks them up by name and copies attributes between
     objects in three modes.
   - `ReflectionUtil` walks superclass chains and interface lists.
   - `ObjectUtil` gives null-safe equality and comparison.
3. **The 8-puzzle case base of `python/CBR.py`.** This covers board states,
   the tile-by-tile similarity count, successor generation by moving the
   blank, the breadth-first search with its visit limit, and the exact-match
   test of the case-based search.

Modules, one per file:

| file | module | models |
|---|---|---|
| errors.dfy | Errors | the exceptions the library throws, as an `Error` datatype; `Option`, `Result`, `Outcome` |
| classes.dfy | Classes | the reflective world: `ClassWorld` (an acyclic superclass map ranked by depth, interface lists, public methods), `Method`, `Value`, `Record` (an instance as a map from attribute name to value) |
| text.dfy | Text | `StringTokenizer` with one delimiter, and `String.trim` |
| reflection_util.dfy | ReflectionUtil | ReflectionUtil.java |
| object_util.dfy | ObjectUtil | ObjectUtil.java |
| accessor_naming.dfy | AccessorNaming | the pure predicates of AccessorUtil.java: `isGetter`, `isSetter`, `getAttributeName`, `isCompatible`, `isConvertable`, `convert` |
| accessor.dfy | Accessors | Accessor.java: the `Accessor` class, and its four guarded setters as pure steps on an `AccessorState` value |
| accessor_util.dfy | AccessorUtil | the rest of AccessorUtil.java: discovery, the cache as a `Registry` class, lookups, name listings, copy |
| features.dfy | Features | FeatureImpl.java (class `Feature`), CaseSimilarityImpl.java (datatype `CaseSimilarity`), DefaultFeatureComparator.java (`Similar`) |
| feature_similarity.dfy | FeatureSimilarity | FeatureSimilarity.java |
| puzzle.dfy | Puzzle | python/CBR.py |

Modelling choices:

- Java reflection becomes data. A method is its name, declaring class,
  return type and parameter types. An object is its class and a map of
  attribute values. `Method.invoke` of a getter or setter is a map read or
  write.
- Code the library calls but does not define is a parameter:
  - `toString` and the `String` constructors of number classes used by
    `convert` (`AccessorNaming.Host`);
  - the comparators bound by a `FeatureComparator` annotation
    (`FeatureSimilarity.Bindings`, a map from getter to comparator).
- The static accessor cache of `AccessorUtil` is the `cache` field of a
  `Registry` object. It maps each class to a map from attribute name to
  `Accessor` objects. Methods on it state the new cache and the new states of
  the accessors it holds.
- Each loop over a `Map` or `Set` visits the elements in an unspecified
  order. Contracts state only what holds for every order.
- `FeatureSimilarity` takes the accessors of the query's class as a value
  (`schema`, the accessor states of `getAccessorsMap(query.getClass())`).
- A Java `double` is a `real`. `FeatureSimilarity` divides by `maxScore`, so
  the one place where IEEE behaviour matters is modelled: the `Double`
  datatype holds a finite value, the two infinities, or NaN, which is what
  `caseScore * 100 / maxScore` gives when `maxScore` is 0.
- In CBR.py a cell holds a Python number or string (`Puzzle.Tile`) and a
  board is a list (`Puzzle.State`). A Python `IndexError` is
  `Err(IndexOutOfBounds)`.

## Model

| member | source | states |
|---|---|---|
| Features.Feature.constructor | src/main/java/zx/soft/cbr/classify/core/FeatureImpl.java:18-23 | stores attribute, weight and range, and the feature starts selected |
| Features.Feature.WithSelection | src/main/java/zx/soft/cbr/classify/core/FeatureImpl.java:25-28 | stores attribute and selection; weight and range keep Java's default 0 |
| Features.Feature.SetWeight | src/main/java/zx/soft/cbr/classify/core/FeatureImpl.java:38-40 | changes the weight and nothing else; the attribute is final |
| Features.Feature.SetRange | src/main/java/zx/soft/cbr/classify/core/FeatureImpl.java:46-48 | changes the range and nothing else |
| Features.Feature.SetSelected | src/main/java/zx/soft/cbr/classify/core/FeatureImpl.java:54-56 | changes the selection and nothing else |
| Features.Similar | src/main/java/zx/soft/cbr/classify/core/DefaultFeatureComparator.java:16-36 | either value null scores 0 without an error; values of different classes, or a number against a non-number, fail; every score lies in [0, 1] |
| Features.EqualNumbersScoreOne | src/main/java/zx/soft/cbr/classify/core/DefaultFeatureComparator.java:25-28 | equal numbers score 1, whatever the range |
| Features.NumbersDecayWithDistance | src/main/java/zx/soft/cbr/classify/core/DefaultFeatureComparator.java:25-31 | numbers at distance d with 0 < d <= range score 1 - d/range; beyond the range they score 0 |
| Features.ZeroRangeIsExactMatch | src/main/java/zx/soft/cbr/classify/core/DefaultFeatureComparator.java:27-31 | with a range of 0 or less, numbers score 1 when equal and 0 otherwise |
| Features.HalfRangeExample | src/main/java/zx/soft/cbr/classify/core/DefaultFeatureComparator.java:29-30 | with range 10, 5 against 10 scores 0.5 |
| Features.SimilarSymmetric | src/main/java/zx/soft/cbr/classify/core/DefaultFeatureComparator.java:16-36 | swapping the two values changes neither whether it throws nor the score |
| Features.SimilarReflexive | src/main/java/zx/soft/cbr/classify/core/DefaultFeatureComparator.java:17-34 | a non-null value scores 1 against itself; null scores 0 |
| Features.CloserScoresHigher | src/main/java/zx/soft/cbr/classify/core/DefaultFeatureComparator.java:25-31 | a closer pair of numbers never scores below a farther pair |
| Features.OtherValuesScoreByEquality | src/main/java/zx/soft/cbr/classify/core/DefaultFeatureComparator.java:32-34 | non-numbers of one class score 1 when equal and 0 otherwise |
| FeatureSimilarity.Read | src/main/java/zx/soft/cbr/classify/core/FeatureSimilarity.java:33 | a successful read means the attribute has an accessor, and it yields the record's value of that attribute |
| FeatureSimilarity.GivenFeatures | src/main/java/zx/soft/cbr/classify/core/FeatureSimilarity.java:22-24 | no varargs array gives no features; an empty array throws ArrayIndexOutOfBounds; otherwise the first argument |
| FeatureSimilarity.OmittedFeaturesThrow | src/main/java/zx/soft/cbr/classify/core/FeatureSimilarity.java:22-23 | a call with no argument after the threshold throws before any feature is read |
| FeatureSimilarity.IntendedFeatures | src/main/java/zx/soft/cbr/classify/core/FeatureSimilarity.java:22-27 | an omitted or null features argument means "derive the features"; otherwise the same as the code |
| FeatureSimilarity.AllFeatures | src/main/java/zx/soft/cbr/classify/core/FeatureSimilarity.java:62-68 | one selected feature of weight 1 and range 0 for each accessor name, each name once, every name covered |
| FeatureSimilarity.MaxScoreLoop | src/main/java/zx/soft/cbr/classify/core/FeatureSimilarity.java:29-40 | the loop computes maxScore: the sum of the weights of selected features whose value on the query is non-null; the first exception aborts it |
| FeatureSimilarity.CaseScoreLoop | src/main/java/zx/soft/cbr/classify/core/FeatureSimilarity.java:44-49 | the loop computes caseScore: the sum of getScore over the selected features; the first exception aborts it |
| FeatureSimilarity.CaseStep | src/main/java/zx/soft/cbr/classify/core/FeatureSimilarity.java:45-48 | one turn of the caseScore loop extends the sum by feature i |
| FeatureSimilarity.CaseScoreSkip | src/main/java/zx/soft/cbr/classify/core/FeatureSimilarity.java:46 | an unselected feature leaves caseScore unchanged |
| FeatureSimilarity.CaseScoreAdd | src/main/java/zx/soft/cbr/classify/core/FeatureSimilarity.java:46-47 | a selected feature adds its getScore |
| FeatureSimilarity.CaseScoreFailsAt | src/main/java/zx/soft/cbr/classify/core/FeatureSimilarity.java:47 | a selected feature whose score throws makes caseScore throw that error |
| FeatureSimilarity.PrefixFailsMax | src/main/java/zx/soft/cbr/classify/core/FeatureSimilarity.java:32-38 | an exception while summing maxScore is the result of the whole sum |
| FeatureSimilarity.PrefixFailsCase | src/main/java/zx/soft/cbr/classify/core/FeatureSimilarity.java:45-48 | an exception while summing caseScore is the result of the whole sum |
| FeatureSimilarity.MatchesAdd | src/main/java/zx/soft/cbr/classify/core/FeatureSimilarity.java:43-54 | one more candidate adds at most its own entry to the result set |
| FeatureSimilarity.Rank | src/main/java/zx/soft/cbr/classify/core/FeatureSimilarity.java:41-55 | throws exactly when some candidate's score throws, with that candidate's error; otherwise the set of entries of the candidates reaching the threshold |
| FeatureSimilarity.GetSimilarity | src/main/java/zx/soft/cbr/classify/core/FeatureSimilarity.java:18-60 | an empty varargs array throws; otherwise the features are the given ones or the derived ones; no features throws; maxScore is computed first and may throw; null or empty candidates give null; any failing candidate aborts; otherwise the matching entries |
| FeatureSimilarity.GetSimilarityIntended | src/main/java/zx/soft/cbr/classify/core/FeatureSimilarity.java:18-60 | the same answer, with an omitted features argument deriving the features |
| FeatureSimilarity.Similarity | src/main/java/zx/soft/cbr/classify/core/FeatureSimilarity.java:25-59 | getSimilarity once the features argument is known, with the answer described for GetSimilarity |
| FeatureSimilarity.SelectedOnly | src/main/java/zx/soft/cbr/classify/core/FeatureSimilarity.java:31 | keeps only selected features |
| FeatureSimilarity.MaxIgnoresUnselected | src/main/java/zx/soft/cbr/classify/core/FeatureSimilarity.java:31 | unselected features play no part in maxScore, errors included |
| FeatureSimilarity.MaxScoreSnocSkip | src/main/java/zx/soft/cbr/classify/core/FeatureSimilarity.java:31 | an unselected last feature adds nothing to maxScore |
| FeatureSimilarity.MaxScoreSnocSame | src/main/java/zx/soft/cbr/classify/core/FeatureSimilarity.java:30-39 | maxScore depends on the earlier features only through their sum |
| FeatureSimilarity.CaseScoreSnocSkip | src/main/java/zx/soft/cbr/classify/core/FeatureSimilarity.java:46 | an unselected last feature adds nothing to caseScore |
| FeatureSimilarity.CaseScoreSnocSame | src/main/java/zx/soft/cbr/classify/core/FeatureSimilarity.java:45-48 | caseScore depends on the earlier features only through their sum |
| FeatureSimilarity.CaseIgnoresUnselected | src/main/java/zx/soft/cbr/classify/core/FeatureSimilarity.java:46 | unselected features play no part in caseScore, errors included |
| FeatureSimilarity.ScoreWithinWeight | src/main/java/zx/soft/cbr/classify/core/FeatureSimilarity.java:81 | with the default comparator and a non-negative weight, a feature scores between 0 and its weight, and 0 when the query's value is null |
| FeatureSimilarity.ScoreIsWeighted | src/main/java/zx/soft/cbr/classify/core/FeatureSimilarity.java:70-81 | a default score that does not throw is the comparator's value on the two read values times the weight |
| FeatureSimilarity.CaseScoreWithinMax | src/main/java/zx/soft/cbr/classify/core/FeatureSimilarity.java:29-49 | with default comparators and non-negative weights, a candidate's caseScore lies between 0 and maxScore |
| FeatureSimilarity.PercentagesInRange | src/main/java/zx/soft/cbr/classify/core/FeatureSimilarity.java:29-53 | with default comparators and non-negative weights, every entry is a finite percentage in [0, 100], with baseCase the query and similarCase a candidate |
| FeatureSimilarity.PassingPercent | src/main/java/zx/soft/cbr/classify/core/FeatureSimilarity.java:50-51 | a percentage of a score in [0, maxScore] that passes a threshold is finite and in [0, 100] |
| FeatureSimilarity.PercentWithin | src/main/java/zx/soft/cbr/classify/core/FeatureSimilarity.java:50 | a score in [0, maxScore] with maxScore non-zero is a percentage in [0, 100], and 100 at maxScore |
| FeatureSimilarity.ThresholdMonotone | src/main/java/zx/soft/cbr/classify/core/FeatureSimilarity.java:51 | raising the threshold can only remove entries |
| FeatureSimilarity.MatchesMembership | src/main/java/zx/soft/cbr/classify/core/FeatureSimilarity.java:50-53 | a candidate's entry is in the result exactly when its percentage reaches the threshold |
| FeatureSimilarity.SelfScoreOne | src/main/java/zx/soft/cbr/classify/core/FeatureSimilarity.java:70-81 | the query against itself on one feature scores the weight when its value is non-null and 0 when null |
| FeatureSimilarity.SelfScoreIsMax | src/main/java/zx/soft/cbr/classify/core/FeatureSimilarity.java:29-49 | with default comparators the query's caseScore against itself equals its maxScore, errors included |
| FeatureSimilarity.SelfIsHundredPercent | src/main/java/zx/soft/cbr/classify/core/FeatureSimilarity.java:50 | with a positive maxScore the query is 100 percent similar to itself |
| FeatureSimilarity.AgeAndCityExample | src/main/java/zx/soft/cbr/classify/core/FeatureSimilarity.java:29-53 | {age 30, city NY} against {age 32, city NY}, range 10 and weights 1: maxScore 2, caseScore 1.8, 90 percent |
| FeatureSimilarity.ScoreFromReads | src/main/java/zx/soft/cbr/classify/core/FeatureSimilarity.java:70-81 | with no bound comparator, the score is the default comparator's value on the two values read, times the weight |
| FeatureSimilarity.AgeScore | src/main/java/zx/soft/cbr/classify/core/FeatureSimilarity.java:70-81 | ages 30 and 32 with range 10 and weight 1 score 0.8 |
| FeatureSimilarity.CityScore | src/main/java/zx/soft/cbr/classify/core/FeatureSimilarity.java:70-81 | two equal cities with weight 1 score 1 |
| Accessors.AccessorState.Name | src/main/java/zx/soft/cbr/classify/utils/Accessor.java:217-225 | no name exactly when neither method is held; the setter's attribute name is preferred |
| Accessors.AccessorState.Type | src/main/java/zx/soft/cbr/classify/utils/Accessor.java:333-340 | the getter's return type, else the setter's first parameter type (out of bounds with no parameter), else NullPointerException |
| Accessors.AccessorState.IsJavaType | src/main/java/zx/soft/cbr/classify/utils/Accessor.java:350-362 | true exactly when the type is primitive or one of the boxed types, String or Date; fails exactly when getType fails |
| Accessors.AccessorState.IsReadable | src/main/java/zx/soft/cbr/classify/utils/Accessor.java:232-234 | readable exactly when a getter is held (a definition; its properties are stated by AccessModes) |
| Accessors.AccessorState.IsWriteable | src/main/java/zx/soft/cbr/classify/utils/Accessor.java:241-243 | writeable exactly when a setter is held (a definition; its properties are stated by AccessModes) |
| Accessors.AccessorState.IsRW | src/main/java/zx/soft/cbr/classify/utils/Accessor.java:250-252 | both readable and writeable (a definition; its properties are stated by AccessModes) |
| Accessors.AccessorState.IsRO | src/main/java/zx/soft/cbr/classify/utils/Accessor.java:259-261 | readable and not writeable (a definition; its properties are stated by AccessModes) |
| Accessors.AccessModes | src/main/java/zx/soft/cbr/classify/utils/Accessor.java:232-261 | isRW and isRO split the readable descriptors and never hold together; a read-only one is named after its getter; no name exactly when neither method is held |
| Accessors.SetOwnerClassStep | src/main/java/zx/soft/cbr/classify/utils/Accessor.java:120-140 | setOwnerClass: null is stored; a class that does not declare (or inherit into) the held methods, or that the owner is not an instance of, is refused with IncompatibleClassException, and the state is unchanged (a definition; its properties are stated by OwnerStepsKeepInvariants and OwnerStepsKeepMethods) |
| Accessors.SetOwnerStep | src/main/java/zx/soft/cbr/classify/utils/Accessor.java:87-104 | setOwner: null is stored; an owner that is not an instance of the owner class is refused; with no owner class the owner is stored and its class becomes the owner class, which can still fail (a definition; its properties are stated by OwnerStepsKeepInvariants and OwnerStepsKeepMethods) |
| Accessors.SetGetterStep | src/main/java/zx/soft/cbr/classify/utils/Accessor.java:156-175 | setGetter: null clears; a non-getter is an InvalidAccessorException; a getter incompatible with the held setter is an IncompatibleMethodException; isCompatible's own failure propagates (a definition; its properties are stated by MethodStepsKeepValid and IncompatibleGetterRefused) |
| Accessors.SetSetterStep | src/main/java/zx/soft/cbr/classify/utils/Accessor.java:191-210 | setSetter: null clears; a non-setter is an InvalidAccessorException; a setter incompatible with the held getter is an IncompatibleMethodException; isCompatible's own failure propagates (a definition; its properties are stated by MethodStepsKeepValid) |
| Accessors.ConstructStep | src/main/java/zx/soft/cbr/classify/utils/Accessor.java:64-71 | the constructor: setOwner, then setOwnerClass only without an owner, then setGetter and setSetter; the first failure aborts (a definition; its properties are stated by ConstructedIsValid) |
| Accessors.MethodStepsKeepValid | src/main/java/zx/soft/cbr/classify/utils/Accessor.java:156-210 | setGetter and setSetter keep the getter/setter invariant; a refused call changes nothing; an accepted one changes only its own field |
| Accessors.IncompatibleGetterRefused | src/main/java/zx/soft/cbr/classify/utils/Accessor.java:162-168 | a getter naming another attribute than the held setter is refused with IncompatibleMethodException |
| Accessors.OwnerStepsKeepInvariants | src/main/java/zx/soft/cbr/classify/utils/Accessor.java:87-140 | setOwner and setOwnerClass keep both invariants; setOwnerClass changes nothing when it refuses; setOwner can fail after storing the owner |
| Accessors.OwnerStepsKeepMethods | src/main/java/zx/soft/cbr/classify/utils/Accessor.java:87-140 | the owner setters never change getter or setter, and a successful setOwner stores the owner |
| Accessors.BothSidesAgree | src/main/java/zx/soft/cbr/classify/utils/Accessor.java:217-225 | with both methods held, getName and getType give the same answer from either side |
| Accessors.ConstructedIsValid | src/main/java/zx/soft/cbr/classify/utils/Accessor.java:64-71 | whatever the constructor arguments, the state reached is valid and bound |
| Accessors.InvokeGetter | src/main/java/zx/soft/cbr/classify/utils/Accessor.java:273-276 | succeeds exactly when a getter is held and obj is an instance of its class, and yields the getter's attribute of obj |
| Accessors.SetterArgument | src/main/java/zx/soft/cbr/classify/utils/Accessor.java:290-298 | a compatible parameter is passed as is; a null parameter fails |
| Accessors.AcceptsArgument | src/main/java/zx/soft/cbr/classify/utils/Accessor.java:290-298 | what Method.invoke accepts for a parameter type: null only for a reference type, a wrapper unwrapped (and widened) into a primitive type, otherwise an instance of the type (a definition; its properties are stated by WriteWith, NullIntoPrimitive, TextIntoIntSetter and AncestorIntoSubclassSlot) |
| Accessors.WriteWith | src/main/java/zx/soft/cbr/classify/utils/Accessor.java:290-298 | no setter is a NullPointerException; it writes exactly when obj is of the setter's class, the setter takes one parameter and accepts the value, otherwise IllegalArgumentException; on success only the setter's attribute changes, to the value |
| Accessors.InvokeSetter | src/main/java/zx/soft/cbr/classify/utils/Accessor.java:290-298 | null fails; once the argument is known and a setter is held, it succeeds exactly when obj is of the setter's class, the setter takes one parameter and that parameter accepts the argument, and otherwise fails with IllegalArgumentException; on success the setter's attribute holds the argument and every other attribute is unchanged |
| Accessors.NullIntoPrimitive | src/main/java/zx/soft/cbr/classify/utils/Accessor.java:290-298 | an argument that reaches the setter as null is refused for a primitive parameter |
| Accessors.TextIntoIntSetter | src/main/java/zx/soft/cbr/classify/utils/Accessor.java:290-298 | the text "30" for an int setter is converted to null, and the write then fails |
| Accessors.AncestorIntoSubclassSlot | src/main/java/zx/soft/cbr/classify/utils/Accessor.java:290-298 | a value that isCompatible passes unconverted because its class is a proper superclass of the parameter class is refused by invoke |
| Accessors.SetThenGet | src/main/java/zx/soft/cbr/classify/utils/Accessor.java:273-298 | setting a compatible value and reading it back gives that value |
| Accessors.SameClassValueRejected | src/main/java/zx/soft/cbr/classify/utils/Accessor.java:290-298 | a value of exactly the declared (non-String, non-Object) class is refused with IllegalArgumentException |
| Accessors.NewCollection | src/main/java/zx/soft/cbr/classify/utils/AccessorUtil.java:327-333 | a collection type is instantiated as an empty collection |
| Accessors.SetOrAddToAttribute | src/main/java/zx/soft/cbr/classify/utils/Accessor.java:445-461 | a null accessor does nothing; on success the entity keeps its class (the collection cases are stated by AddToExistingCollection and AddAllToExistingCollection) |
| Accessors.AddToExistingCollection | src/main/java/zx/soft/cbr/classify/utils/Accessor.java:445-461 | adding one element to an existing collection attribute appends it to a list, adds it to a set only when no equal element is present, and changes nothing else |
| Accessors.AddAllToExistingCollection | src/main/java/zx/soft/cbr/classify/utils/Accessor.java:445-461 | adding a collection to an existing collection attribute leaves exactly the elements of both; a list gets them appended in order, and a set without duplicates stays without them; nothing else changes |
| Accessors.AddItem | src/main/java/zx/soft/cbr/classify/utils/Accessor.java:455-458 | Collection.add: a list appends; a set holding an equal element is unchanged; the result holds the old elements and the new one, and a set stays free of duplicates |
| Accessors.AddAllItemsProperties | src/main/java/zx/soft/cbr/classify/utils/Accessor.java:452-454 | Collection.addAll: the result holds exactly the elements of both; a list appends all of them; a set stays free of duplicates |
| Accessors.Accessor.constructor | src/main/java/zx/soft/cbr/classify/utils/Accessor.java:64-71 | a new Accessor starts with all four fields null, before the constructor's setter calls |
| Accessors.Accessor.SetOwnerClass | src/main/java/zx/soft/cbr/classify/utils/Accessor.java:120-140 | performs exactly the owner-class step, with its exceptions |
| Accessors.Accessor.SetOwner | src/main/java/zx/soft/cbr/classify/utils/Accessor.java:87-104 | performs exactly the owner step, with its exceptions |
| Accessors.Accessor.SetGetter | src/main/java/zx/soft/cbr/classify/utils/Accessor.java:156-175 | performs exactly the getter step, with its exceptions |
| Accessors.Accessor.SetSetter | src/main/java/zx/soft/cbr/classify/utils/Accessor.java:191-210 | performs exactly the setter step, with its exceptions |
| Accessors.Accessor.Reset | src/main/java/zx/soft/cbr/classify/utils/Accessor.java:367-372 | all four fields become null |
| Accessors.NewAccessor | src/main/java/zx/soft/cbr/classify/utils/Accessor.java:64-71 | a fresh Accessor in the state the four setter calls reach, or the first of their exceptions |
| Accessors.NewAccessorForClass | src/main/java/zx/soft/cbr/classify/utils/Accessor.java:32-36 | the same with no owner |
| Accessors.NewAccessorForOwner | src/main/java/zx/soft/cbr/classify/utils/Accessor.java:46-50 | the same with no owner class |
| AccessorNaming.GetAttributeName | src/main/java/zx/soft/cbr/classify/utils/AccessorUtil.java:253-264 | fails exactly for non-accessors (NullPointerException); else the name without its prefix, first character lower-cased |
| AccessorNaming.BeanNameRoundTrip | src/main/java/zx/soft/cbr/classify/utils/AccessorUtil.java:253-264 | "get", "is" or "set" plus the capitalised attribute name gives the attribute back |
| AccessorNaming.AttributeNameExamples | src/main/java/zx/soft/cbr/classify/utils/AccessorUtil.java:253-264 | getAge names "age" |
| AccessorNaming.BooleanAttributeNameExample | src/main/java/zx/soft/cbr/classify/utils/AccessorUtil.java:253-264 | isActive names "active" |
| AccessorNaming.AttributeNameEdgeCases | src/main/java/zx/soft/cbr/classify/utils/AccessorUtil.java:253-264 | a bare "get" names ""; "size" is no accessor and throws |
| AccessorNaming.IsGetter | src/main/java/zx/soft/cbr/classify/utils/AccessorUtil.java:273-277 | a name starting with "get" or "is" and no parameters (a definition; its properties are stated by GetterIsNotSetter) |
| AccessorNaming.IsSetter | src/main/java/zx/soft/cbr/classify/utils/AccessorUtil.java:286-289 | a name starting with "set", whatever the parameters (a definition; its properties are stated by GetterIsNotSetter) |
| AccessorNaming.IsAccessor | src/main/java/zx/soft/cbr/classify/utils/AccessorUtil.java:298-300 | a getter or a setter (a definition; its properties are stated by GetterIsNotSetter) |
| AccessorNaming.GetterIsNotSetter | src/main/java/zx/soft/cbr/classify/utils/AccessorUtil.java:273-300 | no method is both a getter and a setter; an accessor is one of the two |
| AccessorNaming.IsCompatible | src/main/java/zx/soft/cbr/classify/utils/AccessorUtil.java:536-541 | true when either method is null; otherwise the kinds, names and types must agree; the only failure is a setter without parameters |
| AccessorNaming.SetterNameExample | src/main/java/zx/soft/cbr/classify/utils/AccessorUtil.java:253-264 | setAge names "age", whatever its return type and parameters |
| AccessorNaming.ZeroParameterSetter | src/main/java/zx/soft/cbr/classify/utils/AccessorUtil.java:286-289 | a parameterless "set" method is a setter and makes isCompatible fail |
| AccessorNaming.Convert | src/main/java/zx/soft/cbr/classify/utils/AccessorUtil.java:573-591 | null fails; an unconvertible value is refused; a value for a String target becomes its text |
| AccessorNaming.IsConvertable | src/main/java/zx/soft/cbr/classify/utils/AccessorUtil.java:555-567 | compatible, or the target is String, or the value is a String and the target is compatible with Number (a definition; its properties are stated by Convert) |
| AccessorNaming.SameClassNotConvertible | src/main/java/zx/soft/cbr/classify/utils/AccessorUtil.java:555-571 | a value of exactly the target class is not convertible |
| AccessorNaming.SubclassValueBecomesNull | src/main/java/zx/soft/cbr/classify/utils/AccessorUtil.java:573-591 | a value of a proper subclass of a non-String target is converted to null |
| AccessorUtil.StartWithGood | src/main/java/zx/soft/cbr/classify/utils/AccessorUtil.java:124-130 | a newly started accessor is valid and named after its method |
| AccessorUtil.DiscoverStepGood | src/main/java/zx/soft/cbr/classify/utils/AccessorUtil.java:120-138 | each discovery step keeps every accessor valid and stored under its own name |
| AccessorUtil.MergeStepGood | src/main/java/zx/soft/cbr/classify/utils/AccessorUtil.java:131-137 | merging a method of the same attribute keeps the accessor valid and its name |
| AccessorUtil.DiscoverStepKeys | src/main/java/zx/soft/cbr/classify/utils/AccessorUtil.java:121-130 | a step adds at most its method's attribute name |
| AccessorUtil.DiscoverAborts | src/main/java/zx/soft/cbr/classify/utils/AccessorUtil.java:119-139 | the first exception of the discovery loop is the result of the whole loop |
| AccessorUtil.DiscoverGood | src/main/java/zx/soft/cbr/classify/utils/AccessorUtil.java:119-139 | discovery yields only valid accessors, each under its own attribute name |
| AccessorUtil.DiscoverKeys | src/main/java/zx/soft/cbr/classify/utils/AccessorUtil.java:119-139 | every discovered name is the attribute name of one of the class's accessor methods |
| AccessorUtil.Lookup | src/main/java/zx/soft/cbr/classify/utils/AccessorUtil.java:38 | Map.get gives the accessor stored under the name, or null when there is none |
| AccessorUtil.DiscoverOne | src/main/java/zx/soft/cbr/classify/utils/AccessorUtil.java:120-138 | one turn of the discovery loop on Accessor objects performs exactly the specified step |
| AccessorUtil.Merge | src/main/java/zx/soft/cbr/classify/utils/AccessorUtil.java:131-137 | the known-name branch performs exactly the merge step |
| AccessorUtil.BuildAccessors | src/main/java/zx/soft/cbr/classify/utils/AccessorUtil.java:117-139 | the new map holds fresh, distinct accessors in exactly the discovered states, or the discovery's exception |
| AccessorUtil.UpdateOwnerGood | src/main/java/zx/soft/cbr/classify/utils/AccessorUtil.java:148-154 | re-owning keeps an accessor valid, bound and named; on success its owner is obj |
| AccessorUtil.UpdateToNullUnbinds | src/main/java/zx/soft/cbr/classify/utils/AccessorUtil.java:148-154 | with obj null the update cannot fail and clears the owner |
| AccessorUtil.DiscoverUnbound | src/main/java/zx/soft/cbr/classify/utils/AccessorUtil.java:126-128 | accessors discovered for a class alone have no owner |
| AccessorUtil.OwnerUpdateRefusal | src/main/java/zx/soft/cbr/classify/utils/AccessorUtil.java:148-154 | a refused owner update is always an IncompatibleClassException |
| AccessorUtil.SelectionByMode | src/main/java/zx/soft/cbr/classify/utils/AccessorUtil.java:460-470 | a null set selects everything; COPY_ONLY the named, COPY_EXCEPT the unnamed, COPY_SIMPLE_AND_CUSTOM the Java-typed and the named; other modes nothing |
| AccessorUtil.WrittenOnlyWhenMatching | src/main/java/zx/soft/cbr/classify/utils/AccessorUtil.java:462-474 | an attribute is written only if it is selected, dest has a writeable accessor of that name, the source one is readable and the types are equal |
| AccessorUtil.CopyOnlyEmptyWritesNothing | src/main/java/zx/soft/cbr/classify/utils/AccessorUtil.java:452-461 | COPY_ONLY with an empty set writes nothing |
| AccessorUtil.CopyExceptNothingIsCopyAll | src/main/java/zx/soft/cbr/classify/utils/AccessorUtil.java:344-347 | COPY_EXCEPT with no names copies like a null set |
| AccessorUtil.CopyExceptNothingSteps | src/main/java/zx/soft/cbr/classify/utils/AccessorUtil.java:344-347 | COPY_EXCEPT with no names succeeds and fails with the same exceptions as a null set |
| AccessorUtil.GatheredStep | src/main/java/zx/soft/cbr/classify/utils/AccessorUtil.java:222-231 | appending the names of one more class keeps the gathered names exactly those of the classes so far |
| AccessorUtil.CopyStepClassOnly | src/main/java/zx/soft/cbr/classify/utils/AccessorUtil.java:458-478 | what a copy step writes depends on dest's class, not on its field values |
| AccessorUtil.CopyOne | src/main/java/zx/soft/cbr/classify/utils/AccessorUtil.java:459-478 | one turn of copy's loop performs exactly the specified selection and transfer |
| AccessorUtil.CopyStart | src/main/java/zx/soft/cbr/classify/utils/AccessorUtil.java:456-458 | before the loop nothing is written |
| AccessorUtil.CopyAdvance | src/main/java/zx/soft/cbr/classify/utils/AccessorUtil.java:458-480 | visiting one attribute advances the loop invariant |
| AccessorUtil.CopyLoop | src/main/java/zx/soft/cbr/classify/utils/AccessorUtil.java:456-480 | in any visiting order, dest ends with the copied value in each written attribute and its old value elsewhere; the copy succeeds iff every attribute's step succeeds, and an exception is the one some step throws |
| AccessorUtil.Visit | src/main/java/zx/soft/cbr/classify/utils/AccessorUtil.java:458-479 | the visit of one attribute keeps the loop invariant; it succeeds iff that attribute's copy step does, and throws that step's exception |
| AccessorUtil.TrimmedSetMembers | src/main/java/zx/soft/cbr/classify/utils/AccessorUtil.java:404-407 | a name is in the set exactly when it is the trimmed form of some token |
| AccessorUtil.TrimmedNames | src/main/java/zx/soft/cbr/classify/utils/AccessorUtil.java:400-407 | the tokenizing loop gives the set of trimmed comma-separated names |
| AccessorUtil.Enumerate | src/main/java/zx/soft/cbr/classify/utils/AccessorUtil.java:201-206 | the names of a key set, each once |
| AccessorUtil.Registry.constructor | src/main/java/zx/soft/cbr/classify/utils/AccessorUtil.java:26 | the cache starts empty |
| AccessorUtil.Registry.GetAccessorsMap | src/main/java/zx/soft/cbr/classify/utils/AccessorUtil.java:115-162 | a miss discovers and caches the class's accessors, and caches nothing when discovery throws; a hit returns the cached map, re-owning every accessor when updateOwner is set; other classes' entries are untouched |
| AccessorUtil.Registry.GetAccessorsMapOf | src/main/java/zx/soft/cbr/classify/utils/AccessorUtil.java:100-102 | the accessors of obj's class, re-owned to obj on a hit and discovered for obj on a miss; it succeeds iff discovery (miss) or every owner update (hit) does, and otherwise throws that exception and leaves the cache as it was |
| AccessorUtil.Registry.GetAccessorsMapOfClass | src/main/java/zx/soft/cbr/classify/utils/AccessorUtil.java:89-91 | the class's accessors with no owner: on a miss those discovery finds, on a hit the cached ones with the owner cleared; discovery's exception leaves the cache as it was |
| AccessorUtil.Registry.HitFailsIncompatible | src/main/java/zx/soft/cbr/classify/utils/AccessorUtil.java:148-154 | on a hit getAccessorsMap(obj) can throw only an IncompatibleClassException |
| AccessorUtil.Registry.UnboundIdle | src/main/java/zx/soft/cbr/classify/utils/AccessorUtil.java:89-91 | once every cached accessor of a class has no owner, getAccessorsMap(clazz) yields exactly their states |
| AccessorUtil.Registry.Fill | src/main/java/zx/soft/cbr/classify/utils/AccessorUtil.java:117-140 | the miss branch: the cache gains exactly the discovered map |
| AccessorUtil.Registry.Install | src/main/java/zx/soft/cbr/classify/utils/AccessorUtil.java:140 | cache.put adds the map under the class |
| AccessorUtil.Registry.ReOwn | src/main/java/zx/soft/cbr/classify/utils/AccessorUtil.java:148-154 | every accessor of the class gets the owner update, and the first exception stops the loop |
| AccessorUtil.Registry.ReOwnEach | src/main/java/zx/soft/cbr/classify/utils/AccessorUtil.java:149-154 | the loop over the accessors still to visit, the others unchanged |
| AccessorUtil.Registry.ReOwnOne | src/main/java/zx/soft/cbr/classify/utils/AccessorUtil.java:150-153 | one accessor gets the owner update, and no other cached accessor changes |
| AccessorUtil.Registry.Bind | src/main/java/zx/soft/cbr/classify/utils/AccessorUtil.java:76-78 | setOwner on one cached accessor, and no other cached accessor changes |
| AccessorUtil.Registry.GetAccessor | src/main/java/zx/soft/cbr/classify/utils/AccessorUtil.java:37-43 | the cached accessor of the name, or null; it is left without owner, and the accessors of the class are what getAccessorsMap(clazz) yields; discovery's exception is the result and leaves the cache as it was |
| AccessorUtil.Registry.GetAccessorOf | src/main/java/zx/soft/cbr/classify/utils/AccessorUtil.java:74-80 | the accessor of the name for obj's class, bound to obj, or null; the states are the unowned ones with the setOwner step applied to that name; an exception comes from discovery or from that setOwner step |
| AccessorUtil.Registry.GetAccessors | src/main/java/zx/soft/cbr/classify/utils/AccessorUtil.java:54-63 | one lookup per trimmed comma-separated name, in order, or null when there are no names; an exception is discovery's, and on success the states are those getAccessorsMap(clazz) yields |
| AccessorUtil.Registry.GetEach | src/main/java/zx/soft/cbr/classify/utils/AccessorUtil.java:57-59 | one lookup per wanted name, in order; an exception is discovery's, and on success the states are those getAccessorsMap(clazz) yields |
| AccessorUtil.Registry.GetAllAttributesName | src/main/java/zx/soft/cbr/classify/utils/AccessorUtil.java:197-209 | every attribute name of the class once, or null when there are none; a new class holds what discovery finds, and an exception is discovery's on a class not yet cached |
| AccessorUtil.Registry.GetAllAttributesNames | src/main/java/zx/soft/cbr/classify/utils/AccessorUtil.java:218-244 | the names of all the classes, or null when none has any; every class added to the cache holds what discovery finds, and an exception is discovery's on one of the classes not cached before |
| AccessorUtil.Registry.Collect | src/main/java/zx/soft/cbr/classify/utils/AccessorUtil.java:222-230 | one iteration over the classes: the cache still extends the original, the next class is listed and its names gathered, or discovery throws on a class not cached before |
| AccessorUtil.Registry.NamesOf | src/main/java/zx/soft/cbr/classify/utils/AccessorUtil.java:224 | getAllAttributesName(clazz) inside the loop: the class's names, the cache entries kept, a new class holding what discovery finds, or discovery's exception |
| AccessorUtil.Registry.GrowsStep | src/main/java/zx/soft/cbr/classify/utils/AccessorUtil.java:222-230 | one more class fetched: the cache still extends the original one and lists one class more |
| AccessorUtil.Registry.ListedGathered | src/main/java/zx/soft/cbr/classify/utils/AccessorUtil.java:232-243 | once every class is fetched, the gathered names are those of all the classes, and there are none iff no class has any |
| AccessorUtil.Registry.CachedGood | src/main/java/zx/soft/cbr/classify/utils/AccessorUtil.java:115-140 | every cached accessor is valid and stored under its own name |
| AccessorUtil.Registry.CopySet | src/main/java/zx/soft/cbr/classify/utils/AccessorUtil.java:450-481 | dest keeps its class, and each attribute holds its copied value or its old one; success means fetching orign's accessors and every copy step succeeded; an exception comes from fetching orign's accessors, from fetching dest's (discovery, or IncompatibleClass on re-owning), or from some copy step |
| AccessorUtil.Registry.FetchMaps | src/main/java/zx/soft/cbr/classify/utils/AccessorUtil.java:451-452 | getAccessorsList(orign) then getAccessorsMap(dest): both cached maps, or the exception of the first fetch, or that of the second after the first succeeded |
| AccessorUtil.Registry.CopyNames | src/main/java/zx/soft/cbr/classify/utils/AccessorUtil.java:398-408 | a String of names copies with the set of its trimmed names, with CopySet's success and failure cases |
| AccessorUtil.Registry.CopyAll | src/main/java/zx/soft/cbr/classify/utils/AccessorUtil.java:344-347 | copies every attribute dest can take, with CopySet's success and failure cases for a null set |
| AccessorUtil.Registry.CopyArg | src/main/java/zx/soft/cbr/classify/utils/AccessorUtil.java:398-415 | a String is split into names, with CopyNames' success and failure cases; an array copies with each element in turn; anything else copies nothing |
| ReflectionUtil.AllSuperclasses | src/main/java/zx/soft/cbr/classify/utils/ReflectionUtil.java:56-71 | the loop builds getAllSuperclasses: null gives [], Object gives [Object], else the superclass walk |
| ReflectionUtil.GetAllSuperclasses | src/main/java/zx/soft/cbr/classify/utils/ReflectionUtil.java:43-81 | null gives no classes, Object gives Object, otherwise the superclass chain up to Object (or java.lang.Class when a limit is given) (a definition; its properties are stated by AllSuperclasses, WalkLinks, WalkEnds and WalkRanks) |
| ReflectionUtil.IsInstance | src/main/java/zx/soft/cbr/classify/utils/ReflectionUtil.java:83-89 | obj's class is the class or is below it on the superclass chain (a definition; its properties are stated by InstanceTransitive) |
| ReflectionUtil.AllInterfaces | src/main/java/zx/soft/cbr/classify/utils/ReflectionUtil.java:116-127 | the declared interfaces of the class and of each superclass below Object, each followed by its own superclasses (a definition; its properties are stated by AllInterfacesLoop) |
| ReflectionUtil.WalkLinks | src/main/java/zx/soft/cbr/classify/utils/ReflectionUtil.java:58-66 | each class on the walk is the superclass of the one before it |
| ReflectionUtil.WalkEnds | src/main/java/zx/soft/cbr/classify/utils/ReflectionUtil.java:60-61 | the walk ends at Object, at a class with no superclass, or (with a limit) at java.lang.Class |
| ReflectionUtil.WalkRanks | src/main/java/zx/soft/cbr/classify/utils/ReflectionUtil.java:60-66 | every class on the walk is strictly higher in the hierarchy |
| ReflectionUtil.NotOnOwnWalk | src/main/java/zx/soft/cbr/classify/utils/ReflectionUtil.java:58-66 | a class never occurs on its own walk |
| ReflectionUtil.WalkClosed | src/main/java/zx/soft/cbr/classify/utils/ReflectionUtil.java:58-66 | the walk of a class on the walk lies inside the walk |
| ReflectionUtil.InstanceTransitive | src/main/java/zx/soft/cbr/classify/utils/ReflectionUtil.java:83-89 | being an instance is transitive |
| ReflectionUtil.DeclaredLoop | src/main/java/zx/soft/cbr/classify/utils/ReflectionUtil.java:119-123 | the inner loop appends each interface followed by its superclasses |
| ReflectionUtil.AllInterfacesLoop | src/main/java/zx/soft/cbr/classify/utils/ReflectionUtil.java:116-127 | the loop builds getAllInterfaces: declared interfaces of the class and of each superclass below Object |
| ReflectionUtil.IsImplementedByAny | src/main/java/zx/soft/cbr/classify/utils/ReflectionUtil.java:23-30 | a null class throws; otherwise true exactly when the interface is among getAllInterfaces |
| ReflectionUtil.ImplementedByInheritance | src/main/java/zx/soft/cbr/classify/utils/ReflectionUtil.java:116-127 | an interface declared on a class or inherited from a superclass below Object is implemented |
| ReflectionUtil.DeclaredContains | src/main/java/zx/soft/cbr/classify/utils/ReflectionUtil.java:119-121 | every declared interface is collected |
| ReflectionUtil.IsImplementedByAll | src/main/java/zx/soft/cbr/classify/utils/ReflectionUtil.java:100-107 | true exactly when every listed interface is implemented, true for none; the first exception stops it |
| ReflectionUtil.CompatibleIrreflexive | src/main/java/zx/soft/cbr/classify/utils/ReflectionUtil.java:133-138 | for a class target only Object is compatible with itself |
| ReflectionUtil.CompatibleMeansAncestor | src/main/java/zx/soft/cbr/classify/utils/ReflectionUtil.java:133-138 | for a class target, compatibility means objectClass is a proper ancestor of clazz |
| ObjectUtil.NullSafeEqualsProperties | src/main/java/zx/soft/cbr/classify/utils/ObjectUtil.java:20-28 | equal references are equal; null never equals non-null; symmetric when equals is |
| ObjectUtil.NullSafeEquals | src/main/java/zx/soft/cbr/classify/utils/ObjectUtil.java:20-28 | equals when both are non-null, otherwise true exactly when both are null (a definition; its properties are stated by NullSafeEqualsProperties and EqualsAll) |
| ObjectUtil.EqualsAll | src/main/java/zx/soft/cbr/classify/utils/ObjectUtil.java:36-44 | true exactly when every pair is equal, true for none |
| ObjectUtil.Compare | src/main/java/zx/soft/cbr/classify/utils/ObjectUtil.java:55-67 | null ranks below non-null, two nulls are equal |
| ObjectUtil.CompareAntisymmetric | src/main/java/zx/soft/cbr/classify/utils/ObjectUtil.java:55-67 | antisymmetric in sign when compareTo is |
| ObjectUtil.Wrap32 | src/main/java/zx/soft/cbr/classify/utils/ObjectUtil.java:77 | the result is a 32-bit int, equal to the exact one when that fits |
| ObjectUtil.CompareInt | src/main/java/zx/soft/cbr/classify/utils/ObjectUtil.java:76-78 | as written: the 32-bit difference, of the right sign when the exact difference fits |
| ObjectUtil.CompareIntOverflows | src/main/java/zx/soft/cbr/classify/utils/ObjectUtil.java:76-78 | Integer.MIN_VALUE compares as greater than 1 |
| ObjectUtil.CompareIntSign | src/main/java/zx/soft/cbr/classify/utils/ObjectUtil.java:76-78 | corrected: negative, zero or positive exactly when a < b, a == b or a > b |
| ObjectUtil.CompareCalendar | src/main/java/zx/soft/cbr/classify/utils/ObjectUtil.java:80-92 | the null order, and for two calendars the sign of the difference of their times |
| Text.Tokens | src/main/java/zx/soft/cbr/classify/utils/AccessorUtil.java:56-58 | StringTokenizer's tokens are non-empty and free of the delimiter |
| Text.TokensOfJoin | src/main/java/zx/soft/cbr/classify/utils/AccessorUtil.java:56-58 | tokenizing undoes joining with the delimiter |
| Text.Trim | src/main/java/zx/soft/cbr/classify/utils/AccessorUtil.java:58 | String.trim gives a substring without white space at either end |
| Text.TrimUnchanged | src/main/java/zx/soft/cbr/classify/utils/AccessorUtil.java:405 | trim leaves a string without surrounding white space as it is |
| Text.TrimIdempotent | src/main/java/zx/soft/cbr/classify/utils/AccessorUtil.java:405 | trimming twice is trimming once |
| Puzzle.MakeState | python/CBR.py:134-140 | the nine arguments in order, each "blank" replaced by 0, so no "blank" remains |
| Puzzle.TestProcedure | python/CBR.py:66-70 | true exactly when the two states are equal |
| Puzzle.CheckSimilarity | python/CBR.py:224-231 | the count of agreeing positions below len(list_from_base); a shorter first list raises IndexError |
| Puzzle.MatchCountBound | python/CBR.py:227-229 | the count never exceeds the number of positions compared |
| Puzzle.MatchCountFull | python/CBR.py:227-229 | the count is full exactly when the compared prefixes are equal |
| Puzzle.BlankIn | python/CBR.py:97-99 | the blank position holds 0, or is the default 0 |
| Puzzle.BlankIsLast | python/CBR.py:97-99 | no later cell holds 0: the blank position is the last 0 |
| Puzzle.FindBlank | python/CBR.py:94-99 | the loop finds that position |
| Puzzle.Moves | python/CBR.py:102-119 | +1 iff blank%3 != 2, -1 iff blank%3 != 0, -3 iff blank > 2, +3 iff blank < 6 |
| Puzzle.MovesOnBoard | python/CBR.py:102-119 | on the board there are 2 to 4 neighbours, all on the board: 4 at the centre, 2 at a corner |
| Puzzle.Adjacent | python/CBR.py:95-119 | the appends build exactly those neighbours, in that order |
| Puzzle.Swap | python/CBR.py:127-129 | the two cells are exchanged and the others kept |
| Puzzle.SwapPermutes | python/CBR.py:127-129 | a swap is a permutation of the cells |
| Puzzle.Expand | python/CBR.py:92-131 | the loop builds exactly the specified successors: a swapped copy of the state for each on-board neighbour, or IndexError |
| Puzzle.CopySwap | python/CBR.py:123-129 | a copy of the state with the two cells exchanged |
| Puzzle.SuccessorsAbort | python/CBR.py:122-130 | an IndexError on an earlier move is the result of the whole expansion |
| Puzzle.SuccessorsShape | python/CBR.py:122-130 | with on-board moves there is one successor per move: the state swapped at the blank and that move |
| Puzzle.ExpandOnBoard | python/CBR.py:92-131 | on a nine-cell board, 2 to 4 successors, each the blank swapped with one neighbour, so a permutation |
| Puzzle.BlankMoves | python/CBR.py:121-131 | when the board has a blank, each successor holds it at the neighbour it moved to |
| Puzzle.UninformedSearch | python/CBR.py:10-64 | the initial checks; no state is visited twice; each visit uses one unit of the limit; a found goal is the last visit and not an earlier one, with runs counted; from one start state the path runs from it to the goal; the path found is a legal one, each state a successor of the one before it; on "No Solution" from a non-empty queue every queued state was visited and the visited states are closed under expansion; an IndexError comes from popping the path deque once it runs short, which needs more than one start state, or from expanding the last visited state |
| Puzzle.PopKeepsReached | python/CBR.py:36-44 | popping n and visiting it keeps every queued state visited or still queued, and every expanded state's successors visited or queued |
| Puzzle.ExpandKeepsWithin | python/CBR.py:56-62 | queueing the successors of the state just visited makes it expanded within the visited and queued states |
| Puzzle.LegalSnoc | python/CBR.py:57-62 | a legal path ending at a state stays legal when one of its successors is appended |
| Puzzle.AlignedPop | python/CBR.py:37-39 | popping both deques keeps every queued state at the end of its queued path |
| Puzzle.AlignedExtend | python/CBR.py:57-62 | extending the path deque and the state deque together keeps them aligned |
| Puzzle.Extend | python/CBR.py:58-60 | each successor is queued with the current path extended by it |
| Puzzle.FindExactMatch | python/CBR.py:156-177 | succeeds exactly when every case can be compared; the first case whose two indexes are 9, or none when there is none |
| Puzzle.ExactIsEqual | python/CBR.py:171-172 | on nine-cell boards both indexes are 9 exactly when both states are equal |

## Left out

- I/O: every `print` and `System.out.println`, the `COPY_ONLY` notice, the
  interactive `__main__` loop and its path stitching, `outputProcedure`,
  `time.time`, `random.choice`, and `generate_test_cases` with its fixed
  demo inputs.
- After the exact match, `testCaseBasedSearch` searches partial matches,
  calls `retrieval`, and adds the result with `Add_Path`. Those parts are
  console-driven case-base maintenance and are not modelled.
- `testUninformedSearch` is the search followed by `Add_Path`, and is not
  modelled.
- Puzzle.UninformedSearch: requires `limit >= 0`. A negative limit never
  reaches 0, so the Python search would then run until the queue empties;
  that case is not modelled. The path is proved to lead from the start to
  the goal only for a queue of one state, the way `testUninformedSearch`
  calls it. The in-loop `queue == []` test cannot hold, so that branch is
  left out.
- Java reflection itself: `getMethods` and `getAnnotation` are data of the
  class world. `Method.invoke` is modelled by its argument checks (receiver
  class, parameter count, null and wrapper unwrapping for primitives,
  assignability). Superinterfaces of interfaces are not followed, in
  `AcceptsArgument` or in recognising a `java.util.Set`.
- AccessorNaming.GetAttributeName: lower-cases ASCII letters only.
  `String.toLowerCase` folds every Unicode letter under the default locale
  (`getÉtat` gives `état`); that folding is not modelled.
- Null query, candidate, `orign` or `dest` objects are not modelled: a
  record is never null. In Java, a null query makes `theCase.getClass()`
  (FeatureSimilarity.java:64) or `obj.getClass()` (AccessorUtil.java:100)
  throw a NullPointerException, and `invokeGetter` on a null candidate
  (FeatureSimilarity.java:33 and 81) throws too.
- Candidate cases are values, so two distinct `ICase` objects with equal
  fields are one element of the candidate set and of the result.
  `HashSet<ICase>` uses object identity unless `ICase` overrides `equals`.
- A `Set`-typed collection attribute keeps its elements in insertion order
  without duplicates; the iteration order of a `HashSet` is not modelled.
- Annotation-driven comparators: a bound comparator is a given function. A
  failure to instantiate it is not modelled.
- Threads: the static cache is not synchronised; the model is sequential.
- Accessors.SetOrAddToAttribute: the collection is a value in the record, so
  the in-place mutation of a shared collection, and aliasing between
  records, are not modelled.
- Copy: the destination is a value threaded through the loop. When a
  setter throws midway, Java leaves dest partly written; the model returns
  only the exception. `orign` and `dest` being the same object is not
  modelled.
- `copyRecursive` (both overloads) walks arbitrary heap graphs, so its
  termination cannot be stated. `Accessor.copy` is not modelled.
- `convert` relies on `toString` and the `String` constructors of number
  classes; they are given functions (`Host`) and may fail.
- The `typeMap` registry (`putType`, `getConcrete`) is a fixed map of the
  collection classes.
- `toString`, `getValueMap`, the `equals` methods of `Accessor`, and
  `invokeGetterOnOwner`/`invokeSetterOnOwner` are not modelled. The last two
  are `invokeGetter`/`invokeSetter` on the owner field.
- `getAccessorsList` is not modelled separately. It lists the values of
  `getAccessorsMap`; `getAllFeatures` and `copy` use the map's states.
- FeatureSimilarity: the accessor map of the query's class is the value
  `schema`. The owner re-binding that each `AccessorUtil.invokeGetter` and
  `getAccessor` performs on the cache is not carried into this module.
- A Java `double` is an exact real: rounding is not modelled. Only the
  division by a zero `maxScore` is modelled, with NaN and the infinities.
  The threshold is a finite real.
- The features are snapshots (`FeatureView`) of the `IFeature` objects.
  They cannot change during a call, as nothing in the call writes them.
- An exception wrapped in `RuntimeException` by getSimilarity is modelled
  as the inner error.
- Features.SimilarSymmetric: requires that both values be numbers or
  neither. In Java two values of one class always agree on this; in the
  model a number and another value may carry the same class name.
- AccessorUtil.Registry.GetAllAttributesNames: states which names occur and
  when the result is null, but not their order.
- AccessorUtil.Registry.CopyArg: for an array argument it states only that
  dest keeps its class; each element's effect is stated by CopyNames and
  CopySet.
- AccessorUtil.Registry.CopySet: when re-owning dest's cached accessors
  throws, it states only that the exception is an
  IncompatibleClassException, not which accessor refused dest. A failing
  copy step is one whose step throws that exception, not necessarily the
  first in the map's order. The same holds for CopyNames, CopyAll and the
  String case of CopyArg.
- AccessorUtil.Registry.GetAccessorsMap: states the cache and the accessor
  states class by class, but not that accessors outside the requested
  class keep their states.
- Accessors.SetOrAddToAttribute: states the null-accessor case and that the
  class is kept. The collection case is stated by AddToExistingCollection
  (one element) and AddAllToExistingCollection (a collection value), for an
  existing collection only; the freshly created collection is not stated.

## Findings

| source | as written | input that shows it | evidently intended | confidence | as-written member | corrected member |
|---|---|---|---|---|---|---|
| src/main/java/zx/soft/cbr/classify/utils/ObjectUtil.java:76-78 | `compare(int a, int b)` returns `a - b` in 32-bit arithmetic | a = -2147483648, b = 1: the difference wraps to 2147483647, so the smaller value compares as greater | the sign of the comparison, as `Integer.compare` gives it | high, not executed | ObjectUtil.CompareIntOverflows | ObjectUtil.CompareIntSign |
| src/main/java/zx/soft/cbr/classify/core/FeatureSimilarity.java:22-23 | `params[0]` is read whenever `params` is non-null | `getSimilarity(query, cands, threshold)` with no trailing argument: Java passes an empty array, and `params[0]` throws ArrayIndexOutOfBoundsException | an omitted features argument derives the features, as a null one does | medium, not executed | FeatureSimilarity.OmittedFeaturesThrow | FeatureSimilarity.GetSimilarityIntended |
