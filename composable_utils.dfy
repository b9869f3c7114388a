/**
 * The lint helpers that decide whether a call expression sits in the body of
 * a composable function or lambda, and whether it is inside `remember`.
 *
 * The syntax tree is seen from the call upward: `chain[0]` is the call
 * expression itself and `chain[i + 1]` is the parent of `chain[i]`, up to the
 * root. Elements are identified by their position in the chain. Annotation
 * lookup and name resolution are recorded as flags on the elements.
 */
module ComposableUtils {
  import opened Options

  /** The short name of the runtime's `remember` function. */
  const RememberName := "remember"

  /**
   * A type reference, composable if the resolved type or the source type
   * reference carries the Composable annotation.
   */
  datatype TypeReference = TypeReference(typeAnnotated: bool, sourceAnnotated: bool)

  /** A parameter, from a class file (read through Kotlin metadata) or from source. */
  datatype Parameter =
    | CompiledParameter(metadataAnnotated: bool)
    | SourceParameter(typeReference: TypeReference)

  /** A variable's initializer, as far as the composable rules care. */
  datatype Initializer =
    | AnonymousFunctionInitializer(hasComposableAnnotation: bool)
    | LambdaLiteralInitializer(hasComposableAnnotation: bool)
    | OtherInitializer

  datatype Variable = Variable(initializer: Initializer, typeReference: Option<TypeReference>)

  /**
   * An element of the tree above a call. A lambda's `parameterForArgument` is
   * the parameter the enclosing call binds it to, when that resolves to one.
   */
  datatype Element =
    | Call(methodName: string, resolvesIntoRuntimePackage: bool)
    | Lambda(parameterForArgument: Option<Parameter>)
    | Method(hasComposableAnnotation: bool)
    | VariableDeclaration(variable: Variable, isLocalProperty: bool)
    | ClassDeclaration(isAnonymous: bool)
    | OtherElement

  predicate IsDeclaration(e: Element) {
    e.Method? || e.VariableDeclaration? || e.ClassDeclaration?
  }

  /** A call to `remember` that resolves into the Compose runtime package. */
  predicate IsRuntimeRemember(e: Element) {
    e.Call? && e.methodName == RememberName && e.resolvesIntoRuntimePackage
  }

  /**
   * A type reference is composable if its resolved type carries the
   * annotation; failing that, the source type reference is consulted.
   */
  function TypeReferenceIsComposable(t: TypeReference): (r: bool)
    ensures t.typeAnnotated ==> r
    ensures !t.typeAnnotated ==> (r <==> t.sourceAnnotated)
  {
    t.typeAnnotated || t.sourceAnnotated
  }

  /**
   * A compiled parameter is composable if its Kotlin metadata says so; a
   * source parameter if its type reference is.
   */
  function ParameterIsComposable(p: Parameter): (r: bool)
    ensures p.CompiledParameter? ==> (r <==> p.metadataAnnotated)
    ensures p.SourceParameter? ==> (r <==> TypeReferenceIsComposable(p.typeReference))
  {
    match p
    case CompiledParameter(annotated) => annotated
    case SourceParameter(t) => TypeReferenceIsComposable(t)
  }

  /** A variable is composable if its lambda initializer or its declared type is annotated. */
  function VariableIsComposable(v: Variable): (r: bool)
    ensures r <==>
              ((v.initializer.AnonymousFunctionInitializer? || v.initializer.LambdaLiteralInitializer?)
                && v.initializer.hasComposableAnnotation)
              || (v.typeReference.Some? && TypeReferenceIsComposable(v.typeReference.value))
    ensures v.initializer.OtherInitializer? && v.typeReference.None? ==> !r
  {
    var annotationOnLambda :=
      match v.initializer
      case AnonymousFunctionInitializer(annotated) => annotated
      case LambdaLiteralInitializer(annotated) => annotated
      case OtherInitializer => false;
    var annotationOnType := v.typeReference.Some? && TypeReferenceIsComposable(v.typeReference.value);
    annotationOnLambda || annotationOnType
  }

  /** The nearest strict ancestor of `chain[i]` that satisfies `p`, if any. */
  function NearestAbove(chain: seq<Element>, i: nat, p: Element -> bool): (r: Option<nat>)
    requires i < |chain|
    ensures r.Some? ==> i < r.value < |chain| && p(chain[r.value])
    ensures r.Some? ==> forall j :: i < j < r.value ==> !p(chain[j])
    ensures r.None? ==> forall j :: i < j < |chain| ==> !p(chain[j])
    decreases |chain| - i
  {
    if i + 1 == |chain| then None
    else if p(chain[i + 1]) then Some(i + 1)
    else NearestAbove(chain, i + 1, p)
  }

  /** `getContainingDeclaration()` of `chain[i]`: its nearest enclosing declaration. */
  function ContainingDeclaration(chain: seq<Element>, i: nat): (r: Option<nat>)
    requires i < |chain|
    ensures r.Some? ==> i < r.value < |chain| && IsDeclaration(chain[r.value])
    ensures r.Some? ==> forall j :: i < j < r.value ==> !IsDeclaration(chain[j])
    ensures r.None? ==> forall j :: i < j < |chain| ==> !IsDeclaration(chain[j])
  {
    NearestAbove(chain, i, IsDeclaration)
  }

  /** `getContainingUClass()` of `chain[i]`: its nearest enclosing class. */
  function ContainingClass(chain: seq<Element>, i: nat): (r: Option<nat>)
    requires i < |chain|
    ensures r.Some? ==> i < r.value < |chain| && chain[r.value].ClassDeclaration?
    ensures r.Some? ==> forall j :: i < j < r.value ==> !chain[j].ClassDeclaration?
    ensures r.None? ==> forall j :: i < j < |chain| ==> !chain[j].ClassDeclaration?
  {
    NearestAbove(chain, i, (e: Element) => e.ClassDeclaration?)
  }

  /**
   * A declaration the boundary search looks past: a local property, an
   * anonymous class, or a declaration whose nearest enclosing class is
   * anonymous.
   */
  predicate Skipped(chain: seq<Element>, i: nat)
    requires i < |chain|
    ensures Skipped(chain, i) <==>
              || (chain[i].VariableDeclaration? && chain[i].isLocalProperty)
              || (chain[i].ClassDeclaration? && chain[i].isAnonymous)
              || exists c :: i < c < |chain| && chain[c].ClassDeclaration? && chain[c].isAnonymous
                             && forall j :: i < j < c ==> !chain[j].ClassDeclaration?
  {
    var isLocalProperty := chain[i].VariableDeclaration? && chain[i].isLocalProperty;
    var isAnonymousClass := chain[i].ClassDeclaration? && chain[i].isAnonymous;
    var insideAnonymousClass :=
      match ContainingClass(chain, i)
      case Some(c) => chain[c].isAnonymous
      case None => false;
    isLocalProperty || isAnonymousClass || insideAnonymousClass
  }

  /**
   * Continue the boundary search from the declaration `d`: the first
   * declaration from `d` upward, through containing declarations, that is not
   * skipped.
   */
  function BoundaryFrom(chain: seq<Element>, d: Option<nat>): (r: Option<nat>)
    requires d.Some? ==> d.value < |chain|
    decreases if d.Some? then |chain| - d.value else 0
  {
    match d
    case None => None
    case Some(k) => if Skipped(chain, k) then BoundaryFrom(chain, ContainingDeclaration(chain, k)) else d
  }

  /**
   * `boundaryUElement`: the nearest declaration above the call that is not
   * skipped, or none when every declaration above it is skipped.
   */
  function Boundary(chain: seq<Element>): (r: Option<nat>)
    requires |chain| > 0
    ensures IsNearestKeptDeclaration(chain, 0, r)
  {
    BoundaryFromIsNearest(chain, 0);
    BoundaryFrom(chain, ContainingDeclaration(chain, 0))
  }

  /**
   * `b` is the nearest declaration above `chain[i]` that is not skipped, or
   * `None` when every declaration above it is skipped.
   */
  predicate IsNearestKeptDeclaration(chain: seq<Element>, i: nat, b: Option<nat>)
    requires i < |chain|
  {
    match b
    case None =>
      forall j :: i < j < |chain| && IsDeclaration(chain[j]) ==> Skipped(chain, j)
    case Some(k) =>
      && i < k < |chain| && IsDeclaration(chain[k]) && !Skipped(chain, k)
      && forall j :: i < j < k && IsDeclaration(chain[j]) ==> Skipped(chain, j)
  }

  /** Searching from the containing declaration of `chain[i]` finds the nearest kept declaration above it. */
  lemma {:induction false} BoundaryFromIsNearest(chain: seq<Element>, i: nat)
    requires i < |chain|
    ensures IsNearestKeptDeclaration(chain, i, BoundaryFrom(chain, ContainingDeclaration(chain, i)))
    decreases |chain| - i
  {
    var d := ContainingDeclaration(chain, i);
    match d
    case None =>
    case Some(k) =>
      if Skipped(chain, k) {
        BoundaryFromIsNearest(chain, k);
      }
  }

  /** The computation of `boundaryUElement`, a search loop over containing declarations. */
  method BoundaryUElement(chain: seq<Element>) returns (b: Option<nat>)
    requires |chain| > 0
    ensures b == Boundary(chain)
    ensures IsNearestKeptDeclaration(chain, 0, b)
  {
    b := ContainingDeclaration(chain, 0);
    while b.Some? && Skipped(chain, b.value)
      invariant b.Some? ==> b.value < |chain|
      invariant BoundaryFrom(chain, b) == Boundary(chain)
      decreases if b.Some? then |chain| - b.value else 0
    {
      b := ContainingDeclaration(chain, b.value);
    }
  }

  /** The walk stops at a lambda, a method or the boundary. */
  predicate Stops(chain: seq<Element>, boundary: Option<nat>, i: nat)
    requires i < |chain|
  {
    chain[i].Lambda? || chain[i].Method? || boundary == Some(i)
  }

  /** The first position at or after `i` where the walk stops, or the last position. */
  function FirstStop(chain: seq<Element>, boundary: Option<nat>, i: nat): (k: nat)
    requires i < |chain|
    ensures i <= k < |chain|
    ensures Stops(chain, boundary, k) || k == |chain| - 1
    ensures forall j :: i <= j < k ==> !Stops(chain, boundary, j)
    decreases |chain| - i
  {
    if Stops(chain, boundary, i) || i == |chain| - 1 then i else FirstStop(chain, boundary, i + 1)
  }

  /**
   * `parentUElements`: a non-empty prefix of the chain that starts at the
   * call; nothing before its last element is a lambda, a method or the
   * boundary, and its last element is one of those unless the walk used up
   * the chain.
   */
  function ParentElements(chain: seq<Element>): (r: seq<Element>)
    requires |chain| > 0
    ensures 0 < |r| <= |chain| && r == chain[..|r|] && r[0] == chain[0]
    ensures forall j :: 0 <= j < |r| - 1 ==> !Stops(chain, Boundary(chain), j)
    ensures Stops(chain, Boundary(chain), |r| - 1) || |r| == |chain|
  {
    chain[..FirstStop(chain, Boundary(chain), 0) + 1]
  }

  /** The walk never goes past the boundary. */
  lemma ParentElementsWithinBoundary(chain: seq<Element>)
    requires |chain| > 0
    ensures Boundary(chain).Some? ==> |ParentElements(chain)| <= Boundary(chain).value + 1
  {
    var b := Boundary(chain);
    if b.Some? {
      assert Stops(chain, b, b.value);
    }
  }

  /** The collection of `parentUElements`: a loop that appends and breaks at the first stop. */
  method ParentUElements(chain: seq<Element>) returns (elements: seq<Element>)
    requires |chain| > 0
    ensures elements == ParentElements(chain)
  {
    var boundary := BoundaryUElement(chain);
    elements := [];
    var i := 0;
    while i < |chain|
      invariant 0 <= i <= |chain|
      invariant elements == chain[..i]
      invariant forall j :: 0 <= j < i ==> !Stops(chain, boundary, j)
    {
      elements := elements + [chain[i]];
      if chain[i].Lambda? || chain[i].Method? || boundary == Some(i) {
        break;
      }
      i := i + 1;
    }
    ghost var walk := ParentElements(chain);
    assert |elements| == |walk| by {
      if i < |chain| {
        assert elements == chain[..i + 1];
        assert Stops(chain, boundary, i);
      } else {
        assert elements == chain;
      }
    }
  }

  /**
   * A lambda is composable if its parent is a call whose parameter for it is
   * composable, or a variable that is composable; any other parent (or none)
   * makes it not composable.
   */
  function LambdaIsComposable(chain: seq<Element>, i: nat): (r: bool)
    requires i < |chain| && chain[i].Lambda?
    ensures i + 1 < |chain| && chain[i + 1].Call? ==>
              (r <==> chain[i].parameterForArgument.Some?
                      && ParameterIsComposable(chain[i].parameterForArgument.value))
    ensures i + 1 < |chain| && chain[i + 1].VariableDeclaration? ==>
              (r <==> VariableIsComposable(chain[i + 1].variable))
    ensures i + 1 == |chain| || !(chain[i + 1].Call? || chain[i + 1].VariableDeclaration?) ==> !r
  {
    if i + 1 < |chain| then
      match chain[i + 1]
      case Call(_, _) =>
        chain[i].parameterForArgument.Some? && ParameterIsComposable(chain[i].parameterForArgument.value)
      case VariableDeclaration(v, _) => VariableIsComposable(v)
      case _ => false
    else
      false
  }

  /**
   * The visitor's `isComposable`: decided by the last element of the walk
   * alone, true exactly for an annotated method or a composable lambda.
   */
  function BodyIsComposable(chain: seq<Element>): (r: bool)
    requires |chain| > 0
    ensures var w := ParentElements(chain); var last := w[|w| - 1];
      r <==> (last.Method? && last.hasComposableAnnotation)
             || (last.Lambda? && LambdaIsComposable(chain, |w| - 1))
  {
    var k := FirstStop(chain, Boundary(chain), 0);
    match chain[k]
    case Method(annotated) => annotated
    case Lambda(_) => LambdaIsComposable(chain, k)
    case _ => false
  }

  /** `isInvokedWithinComposable`: the walk ends at a composable method or lambda. */
  function IsInvokedWithinComposable(chain: seq<Element>): (r: bool)
    requires |chain| > 0
    ensures r <==> BodyIsComposable(chain)
    ensures r ==> var w := ParentElements(chain); w[|w| - 1].Method? || w[|w| - 1].Lambda?
  {
    BodyIsComposable(chain)
  }

  /**
   * `invokedInComposableBodyAndNotRemembered`: in a composable body, with no
   * runtime `remember` call anywhere on the walk, the call itself included;
   * `remember` calls above the walk are not looked at.
   */
  function InvokedInComposableBodyAndNotRemembered(chain: seq<Element>): (r: bool)
    requires |chain| > 0
    ensures r ==> IsInvokedWithinComposable(chain)
    ensures r <==> BodyIsComposable(chain)
                   && forall j :: 0 <= j < |ParentElements(chain)| ==> !IsRuntimeRemember(chain[j])
    ensures IsRuntimeRemember(chain[0]) ==> !r
  {
    BodyIsComposable(chain) && forall e :: e in ParentElements(chain) ==> !IsRuntimeRemember(e)
  }
}
